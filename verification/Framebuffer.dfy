/**
  The software mouse pointer of drv/framebuf.sys.c, 32-bit half: pixels under the visible pointer are kept aside, so
  that all drawing acts on the picture as if there were no pointer.

  A pixel (x, y) is element [y, x] of the frame buffer, which the original addresses as x + y * vwidth.
 */
module Framebuffer {

  const PTR_WIDTH: nat := 64
  const PTR_HEIGHT: nat := 64

  type Color = bv32

  class Framebuf {
    const width: nat
    const height: nat
    const fbuf: array2<Color>
    const back: array2<Color>
    const mask: array2<bv32>
    const shape: array2<Color>
    var ptrX: int
    var ptrY: int
    var hideCount: nat

    /** fb_creat5: everything but the frame buffer is zero, so the pointer covers nothing. */
    constructor (buf: array2<Color>, w: nat, h: nat)
      requires buf.Length0 == h && buf.Length1 >= w
      ensures Valid() && fbuf == buf && width == w && height == h && hideCount == 0
      ensures fresh(back) && fresh(mask) && fresh(shape)
      ensures forall u, v {:trigger On(u, v)} :: On(u, v) ==> Logical(u, v) == fbuf[v, u]
    {
      fbuf, width, height := buf, w, h;
      back := new Color[64, 64]((_, _) => 0);
      mask := new bv32[64, 64]((_, _) => 0);
      shape := new Color[64, 64]((_, _) => 0);
      ptrX, ptrY, hideCount := 0, 0, 0;
    }

    /** Sizes; the rows of the frame buffer may be longer than the screen is wide. */
    ghost predicate Shaped()
      reads this
    {
      && fbuf.Length0 == height && fbuf.Length1 >= width && fbuf !in {back, shape, mask} && back !in {shape, mask}
        && shape != mask
      && back.Length0 == mask.Length0 == shape.Length0 == PTR_HEIGHT
      && back.Length1 == mask.Length1 == shape.Length1 == PTR_WIDTH
    }

    predicate On(x: int, y: int) {
      0 <= x < width && 0 <= y < height
    }

    /** Within the pointer's square at (px, py). */
    predicate Square(px: int, py: int, x: int, y: int) {
      px <= x < px + 64 && py <= y < py + 64
    }

    /** Does the visible pointer cover this pixel? */
    predicate Covered(x: int, y: int)
      requires Shaped()
      reads this, mask
    {
      hideCount == 0 && Square(ptrX, ptrY, x, y) && mask[y - ptrY, x - ptrX] != 0
    }

    /** The picture without the pointer. */
    function Logical(x: int, y: int): Color
      requires Shaped() && On(x, y)
      reads this, fbuf, back, mask
    {
      if Covered(x, y) then back[y - ptrY, x - ptrX] else fbuf[y, x]
    }

    /** The pointer is on the screen wherever it is visible. */
    ghost predicate Drawn()
      requires Shaped()
      reads this, fbuf, mask, shape
    {
      forall x, y {:trigger On(x, y)} :: On(x, y) && Covered(x, y) ==> fbuf[y, x] == shape[y - ptrY, x - ptrX]
    }

    ghost predicate Valid()
      reads this, fbuf, back, mask, shape
    {
      Shaped() && Drawn()
    }

    // ----- single pixels -----

    /** fb_putpix_32. */
    method PutPix(x: int, y: int, c: Color)
      requires Valid() && On(x, y)
      modifies fbuf, back
      ensures Valid()
      ensures forall u, v {:trigger On(u, v)} :: On(u, v) ==>
        Logical(u, v) == if u == x && v == y then c else old(Logical(u, v))
    {
      if hideCount == 0 && ptrX <= x < ptrX + PTR_WIDTH && ptrY <= y < ptrY + PTR_WIDTH {
        if mask[y - ptrY, x - ptrX] != 0 {
          back[y - ptrY, x - ptrX] := c;
          return;
        }
      }
      fbuf[y, x] := c;
    }

    /** fb_getpix_32. */
    method GetPix(x: int, y: int) returns (c: Color)
      requires Valid() && On(x, y)
      ensures c == Logical(x, y)
    {
      if hideCount == 0 && ptrX <= x < ptrX + PTR_WIDTH && ptrY <= y < ptrY + PTR_WIDTH {
        if mask[y - ptrY, x - ptrX] != 0 {
          return back[y - ptrY, x - ptrX];
        }
      }
      return fbuf[y, x];
    }

    /** fb_hline_32. */
    method HLine(x: int, y: int, len: int, c: Color)
      requires Valid() && 0 <= x && 0 <= len && x + len <= width && 0 <= y < height
      modifies fbuf, back
      ensures Valid()
      ensures forall u, v {:trigger On(u, v)} :: On(u, v) ==>
        Logical(u, v) == if x <= u < x + len && v == y then c else old(Logical(u, v))
    {
      if ptrY <= y < ptrY + PTR_HEIGHT {
        for i := x to x + len
          invariant Valid()
          invariant forall u, v {:trigger On(u, v)} :: On(u, v) ==>
            Logical(u, v) == if x <= u < i && v == y then c else old(Logical(u, v))
        {
          PutPix(i, y, c);
        }
      } else {
        for i := x to x + len
          invariant forall u, v {:trigger On(u, v)} :: On(u, v) ==>
            fbuf[v, u] == if x <= u < i && v == y then c else old(fbuf[v, u])
          invariant forall i, j :: 0 <= i < 64 && 0 <= j < 64 ==> back[i, j] == old(back[i, j])
        {
          fbuf[y, i] := c;
        }
      }
    }

    /** fb_vline_32. */
    method VLine(x: int, y: int, len: int, c: Color)
      requires Valid() && 0 <= x < width && 0 <= y && 0 <= len && y + len <= height
      modifies fbuf, back
      ensures Valid()
      ensures forall u, v {:trigger On(u, v)} :: On(u, v) ==>
        Logical(u, v) == if u == x && y <= v < y + len then c else old(Logical(u, v))
    {
      for i := y to y + len
        invariant Valid()
        invariant forall u, v {:trigger On(u, v)} :: On(u, v) ==>
          Logical(u, v) == if u == x && y <= v < i then c else old(Logical(u, v))
      {
        PutPix(x, i, c);
      }
    }

    /** fb_rect_32. */
    method Rect(x: int, y: int, w: int, h: int, c: Color)
      requires Valid() && 0 <= x && 0 <= w && x + w <= width && 0 <= y && 0 <= h && y + h <= height
      modifies fbuf, back
      ensures Valid()
      ensures forall u, v {:trigger On(u, v)} :: On(u, v) ==>
        Logical(u, v) == if x <= u < x + w && y <= v < y + h then c else old(Logical(u, v))
    {
      for i := y to y + h
        invariant Valid()
        invariant forall u, v {:trigger On(u, v)} :: On(u, v) ==>
          Logical(u, v) == if x <= u < x + w && y <= v < i then c else old(Logical(u, v))
      {
        HLine(x, i, w, c);
      }
    }

    // ----- the pointer -----

    /** A coordinate clipped to 0..limit. */
    function Clip(v: int, limit: nat): (r: int)
      ensures r == if v < 0 then 0 else if v > limit then limit else v
    {
      var v := if v > limit then limit else v;
      if v < 0 then 0 else v
    }

    /** One row of fb_showptr_32: pixels are put aside and the pointer is drawn over them. */
    method ShowRow(y: int, x0: int, x1: int)
      requires Shaped() && 0 <= y < height && ptrY <= y < ptrY + 64
      requires 0 <= x0 <= x1 <= width && (x0 < x1 ==> ptrX <= x0 && x1 <= ptrX + 64)
      modifies fbuf, back
      ensures forall u, v {:trigger On(u, v)} :: On(u, v) ==>
        fbuf[v, u] == if v == y && x0 <= u < x1 && mask[v - ptrY, u - ptrX] != 0 then shape[v - ptrY, u - ptrX]
          else old(fbuf[v, u])
      ensures forall u, v {:trigger On(u, v)} :: On(u, v) && Square(ptrX, ptrY, u, v) ==>
        back[v - ptrY, u - ptrX] == if v == y && x0 <= u < x1 then old(fbuf[v, u]) else old(back[v - ptrY, u - ptrX])
    {
      for x := x0 to x1
        invariant forall u, v {:trigger On(u, v)} :: On(u, v) ==>
          fbuf[v, u] == if v == y && x0 <= u < x && mask[v - ptrY, u - ptrX] != 0 then shape[v - ptrY, u - ptrX]
            else old(fbuf[v, u])
        invariant forall u, v {:trigger On(u, v)} :: On(u, v) && Square(ptrX, ptrY, u, v) ==>
          back[v - ptrY, u - ptrX] == if v == y && x0 <= u < x then old(fbuf[v, u]) else old(back[v - ptrY, u - ptrX])
      {
        ShowPixel(x, y);
      }
    }

    /** One pixel of fb_showptr_32. */
    method ShowPixel(x: int, y: int)
      requires Shaped() && On(x, y) && Square(ptrX, ptrY, x, y)
      modifies fbuf, back
      ensures forall u, v {:trigger On(u, v)} :: On(u, v) ==>
        fbuf[v, u] == if u == x && v == y && mask[v - ptrY, u - ptrX] != 0 then shape[v - ptrY, u - ptrX]
          else old(fbuf[v, u])
      ensures forall u, v {:trigger On(u, v)} :: On(u, v) && Square(ptrX, ptrY, u, v) ==>
        back[v - ptrY, u - ptrX] == if u == x && v == y then old(fbuf[v, u]) else old(back[v - ptrY, u - ptrX])
    {
      back[y - ptrY, x - ptrX] := fbuf[y, x];
      if mask[y - ptrY, x - ptrX] != 0 {
        fbuf[y, x] := shape[y - ptrY, x - ptrX];
      }
    }

    /** fb_showptr_32: the picture stays. */
    method ShowPtr()
      requires Shaped() && hideCount > 0
      modifies this`hideCount, fbuf, back
      ensures Valid() && hideCount == old(hideCount) - 1
      ensures forall u, v {:trigger On(u, v)} :: On(u, v) ==> Logical(u, v) == old(fbuf[v, u])
    {
      hideCount := hideCount - 1;
      if hideCount > 0 {
        return;
      }
      var x0, x1 := Clip(ptrX, width), Clip(ptrX + PTR_WIDTH, width);
      var y0, y1 := Clip(ptrY, height), Clip(ptrY + PTR_HEIGHT, height);
      for y := y0 to y1
        modifies fbuf, back
        invariant forall u, v {:trigger On(u, v)} :: On(u, v) ==>
          fbuf[v, u] == if v < y && Covered(u, v) then shape[v - ptrY, u - ptrX] else old(fbuf[v, u])
        invariant forall u, v {:trigger On(u, v)} :: On(u, v) && Square(ptrX, ptrY, u, v) && v < y ==>
          back[v - ptrY, u - ptrX] == old(fbuf[v, u])
      {
        ShowRow(y, x0, x1);
      }
    }

    /** One row of fb_hideptr_32: the pixels put aside come back. */
    method HideRow(y: int, x0: int, x1: int)
      requires Shaped() && 0 <= y < height && ptrY <= y < ptrY + 64
      requires 0 <= x0 <= x1 <= width && (x0 < x1 ==> ptrX <= x0 && x1 <= ptrX + 64)
      modifies fbuf
      ensures forall u, v {:trigger On(u, v)} :: On(u, v) ==>
        fbuf[v, u] == if v == y && x0 <= u < x1 && mask[v - ptrY, u - ptrX] != 0 then back[v - ptrY, u - ptrX]
          else old(fbuf[v, u])
    {
      for x := x0 to x1
        invariant forall u, v {:trigger On(u, v)} :: On(u, v) ==>
          fbuf[v, u] == if v == y && x0 <= u < x && mask[v - ptrY, u - ptrX] != 0 then back[v - ptrY, u - ptrX]
            else old(fbuf[v, u])
      {
        if mask[y - ptrY, x - ptrX] != 0 {
          fbuf[y, x] := back[y - ptrY, x - ptrX];
        }
      }
    }

    /** fb_hideptr_32: the picture stays, and is what the screen shows. */
    method HidePtr()
      requires Valid()
      modifies this`hideCount, fbuf
      ensures Valid() && hideCount == old(hideCount) + 1
      ensures forall u, v {:trigger On(u, v)} :: On(u, v) ==> fbuf[v, u] == old(Logical(u, v))
    {
      hideCount := hideCount + 1;
      if hideCount > 1 {
        return;
      }
      var x0, x1 := Clip(ptrX, width), Clip(ptrX + PTR_WIDTH, width);
      var y0, y1 := Clip(ptrY, height), Clip(ptrY + PTR_HEIGHT, height);
      for y := y0 to y1
        modifies fbuf
        invariant forall u, v {:trigger On(u, v)} :: On(u, v) ==>
          fbuf[v, u] == if v < y then old(Logical(u, v)) else old(fbuf[v, u])
      {
        HideRow(y, x0, x1);
      }
    }

    /** fb_setptr_32: another pointer, the same picture. */
    method SetPtr(newShape: array2<Color>, newMask: array2<bv32>)
      requires Valid() && {newShape, newMask} !! {fbuf, back, shape, mask}
      requires newShape.Length0 == newMask.Length0 == 64 && newShape.Length1 == newMask.Length1 == 64
      modifies this`hideCount, fbuf, back, shape, mask
      ensures Valid() && hideCount == old(hideCount)
      ensures forall i, j :: 0 <= i < 64 && 0 <= j < 64 ==> shape[i, j] == newShape[i, j] && mask[i, j] == newMask[i, j]
      ensures forall u, v {:trigger On(u, v)} :: On(u, v) ==> Logical(u, v) == old(Logical(u, v))
    {
      HidePtr();
      forall i, j | 0 <= i < 64 && 0 <= j < 64 {
        shape[i, j] := newShape[i, j];
      }
      forall i, j | 0 <= i < 64 && 0 <= j < 64 {
        mask[i, j] := newMask[i, j];
      }
      ShowPtr();
    }

    /** One row of the second half of fb_moveptr_32: old save-under pixels are drawn, under the new pointer. */
    method RestoreRow(y: int, x1: int, x2: int, px: int, py: int, oback: array2<Color>)
      requires Valid() && 0 <= y < height && py <= y < py + 64 && oback !in {fbuf, back}
      requires 0 <= x1 && x2 <= width && px <= x1 && x2 <= px + 64 && oback.Length0 == 64 && oback.Length1 == 64
      modifies fbuf, back
      ensures Valid()
      ensures forall u, v {:trigger On(u, v)} :: On(u, v) ==>
        Logical(u, v) == if v == y && x1 <= u < x2 && mask[v - py, u - px] != 0 then oback[v - py, u - px]
          else old(Logical(u, v))
    {
      var x := x1;
      while x < x2
        invariant x1 <= x && Valid() && (x1 <= x2 ==> x <= x2)
        invariant forall u, v {:trigger On(u, v)} :: On(u, v) ==>
          Logical(u, v) == if v == y && x1 <= u < x && u < x2 && mask[v - py, u - px] != 0 then oback[v - py, u - px]
            else old(Logical(u, v))
      {
        if mask[y - py, x - px] != 0 {
          PutPix(x, y, oback[y - py, x - px]);
        }
        x := x + 1;
      }
    }

    /** The second half of fb_moveptr_32: the pointer that was at (x0, y0) is erased. */
    method Erase(x0: int, y0: int, oback: array2<Color>)
      requires Valid() && oback !in {fbuf, back} && oback.Length0 == 64 && oback.Length1 == 64
      modifies fbuf, back
      ensures Valid()
      ensures forall u, v {:trigger On(u, v)} :: On(u, v) ==>
        Logical(u, v) == if Square(x0, y0, u, v) && mask[v - y0, u - x0] != 0 then oback[v - y0, u - x0]
          else old(Logical(u, v))
    {
      var x1, y1, x2, y2 := x0, y0, x0 + PTR_WIDTH, y0 + PTR_WIDTH;
      if x1 < 0 { x1 := 0; }
      if y1 < 0 { y1 := 0; }
      if x2 > width { x2 := width; }
      if y2 > height { y2 := height; }
      var y := y1;
      while y < y2
        invariant y1 <= y && Valid()
        invariant forall u, v {:trigger On(u, v)} :: On(u, v) ==>
          Logical(u, v) == if v < y && Square(x0, y0, u, v) && mask[v - y0, u - x0] != 0 then oback[v - y0, u - x0]
            else old(Logical(u, v))
      {
        RestoreRow(y, x1, x2, x0, y0, oback);
        y := y + 1;
      }
    }

    /** fb_moveptr_32: the new pointer is shown before the old one is erased, and still the picture stays. */
    method MovePtr(x: int, y: int)
      requires Valid()
      modifies this, fbuf, back
      ensures Valid() && hideCount == old(hideCount) && ptrX == x && ptrY == y
      ensures forall u, v {:trigger On(u, v)} :: On(u, v) ==> Logical(u, v) == old(Logical(u, v))
    {
      if hideCount > 0 {
        ptrX, ptrY := x, y;
        return;
      }
      var oback := new Color[64, 64];
      forall i, j | 0 <= i < 64 && 0 <= j < 64 {
        oback[i, j] := back[i, j];
      }
      var x0, y0 := ptrX, ptrY;
      hideCount := 1;
      ptrX, ptrY := x, y;
      ShowPtr();
      Erase(x0, y0, oback);
    }

    // ----- drawing straight into the frame buffer -----

    /** Is the pixel in this rectangle? */
    predicate Inside(x: int, y: int, w: int, h: int, u: int, v: int) {
      x <= u < x + w && y <= v < y + h
    }

    /** The pointer is on the screen wherever it is visible, but for a rectangle that has been drawn over. */
    ghost predicate DrawnBut(x: int, y: int, w: int, h: int)
      requires Shaped()
      reads this, fbuf, mask, shape
    {
      forall u, v {:trigger On(u, v)} :: On(u, v) && Covered(u, v) && !Inside(x, y, w, h, u, v) ==>
        fbuf[v, u] == shape[v - ptrY, u - ptrX]
    }

    /** One row of fb_rptr_32. */
    method RedrawRow(y: int, x0: int, x1: int)
      requires Shaped() && 0 <= y < height && ptrY <= y < ptrY + 64 && hideCount == 0
      requires 0 <= x0 <= x1 <= width && ptrX <= x0 && x1 <= ptrX + 64
      modifies fbuf, back
      ensures forall u, v {:trigger On(u, v)} :: On(u, v) ==>
        fbuf[v, u] == if v == y && x0 <= u < x1 && Covered(u, v) then shape[v - ptrY, u - ptrX] else old(fbuf[v, u])
      ensures forall u, v {:trigger On(u, v)} :: On(u, v) && Covered(u, v) ==>
        back[v - ptrY, u - ptrX] == if v == y && x0 <= u < x1 then old(fbuf[v, u]) else old(back[v - ptrY, u - ptrX])
    {
      for x := x0 to x1
        invariant forall u, v {:trigger On(u, v)} :: On(u, v) ==>
          fbuf[v, u] == if v == y && x0 <= u < x && Covered(u, v) then shape[v - ptrY, u - ptrX] else old(fbuf[v, u])
        invariant forall u, v {:trigger On(u, v)} :: On(u, v) && Covered(u, v) ==>
          back[v - ptrY, u - ptrX] == if v == y && x0 <= u < x then old(fbuf[v, u]) else old(back[v - ptrY, u - ptrX])
      {
        RedrawPixel(x, y);
      }
    }

    /** One pixel of fb_rptr_32. */
    method RedrawPixel(x: int, y: int)
      requires Shaped() && On(x, y) && Square(ptrX, ptrY, x, y) && hideCount == 0
      modifies fbuf, back
      ensures forall u, v {:trigger On(u, v)} :: On(u, v) ==>
        fbuf[v, u] == if u == x && v == y && Covered(u, v) then shape[v - ptrY, u - ptrX] else old(fbuf[v, u])
      ensures forall u, v {:trigger On(u, v)} :: On(u, v) && Covered(u, v) ==>
        back[v - ptrY, u - ptrX] == if u == x && v == y then old(fbuf[v, u]) else old(back[v - ptrY, u - ptrX])
    {
      if mask[y - ptrY, x - ptrX] != 0 {
        back[y - ptrY, x - ptrX] := fbuf[y, x];
        fbuf[y, x] := shape[y - ptrY, x - ptrX];
      }
    }

    /** fb_rptr_32: what has been drawn over the pointer goes under it. */
    method Redraw(x: int, y: int, w: int, h: int)
      requires Shaped() && 0 <= x && 0 <= w && x + w <= width && 0 <= y && 0 <= h && y + h <= height
      requires DrawnBut(x, y, w, h)
      modifies fbuf, back
      ensures Valid()
      ensures forall u, v {:trigger On(u, v)} :: On(u, v) ==>
        Logical(u, v) == if Inside(x, y, w, h, u, v) then old(fbuf[v, u]) else old(Logical(u, v))
    {
      if hideCount > 0 {
        return;
      }
      var x0 := if x > ptrX then x else ptrX;
      var x1 := if x + w < ptrX + PTR_WIDTH then x + w else ptrX + PTR_WIDTH;
      var y0 := if y > ptrY then y else ptrY;
      var y1 := if y + h < ptrY + PTR_HEIGHT then y + h else ptrY + PTR_HEIGHT;
      if x1 <= x0 {
        return;
      }
      RedrawRows(x0, y0, x1, y1);
    }

    /** The loops of fb_rptr_32 over the part of the pointer in the rectangle. */
    method RedrawRows(x0: int, y0: int, x1: int, y1: int)
      requires Shaped() && hideCount == 0 && 0 <= x0 <= x1 <= width && 0 <= y0 && y1 <= height
      requires ptrX <= x0 && x1 <= ptrX + 64 && ptrY <= y0 && y1 <= ptrY + 64
      modifies fbuf, back
      ensures forall u, v {:trigger On(u, v)} :: On(u, v) ==>
        fbuf[v, u] == if x0 <= u < x1 && y0 <= v < y1 && Covered(u, v) then shape[v - ptrY, u - ptrX]
          else old(fbuf[v, u])
      ensures forall u, v {:trigger On(u, v)} :: On(u, v) && Covered(u, v) ==>
        back[v - ptrY, u - ptrX] == if x0 <= u < x1 && y0 <= v < y1 then old(fbuf[v, u])
          else old(back[v - ptrY, u - ptrX])
    {
      var y := y0;
      while y < y1
        invariant y0 <= y && (y <= y1 || y == y0)
        invariant forall u, v {:trigger On(u, v)} :: On(u, v) ==>
          fbuf[v, u] == if x0 <= u < x1 && y0 <= v < y && Covered(u, v) then shape[v - ptrY, u - ptrX]
            else old(fbuf[v, u])
        invariant forall u, v {:trigger On(u, v)} :: On(u, v) && Covered(u, v) ==>
          back[v - ptrY, u - ptrX] == if x0 <= u < x1 && y0 <= v < y then old(fbuf[v, u])
            else old(back[v - ptrY, u - ptrX])
      {
        RedrawRow(y, x0, x1);
        y := y + 1;
      }
    }

    /** The byte at `p`; beyond the end of the bitmap it may be anything. */
    method Fetch(data: seq<bv8>, p: nat) returns (b: bv8)
      ensures p < |data| ==> b == data[p]
    {
      b := *;
      if p < |data| {
        b := data[p];
      }
    }

    /** The raw half of fb_bmp_hline_32: a row of the bitmap into the frame buffer. `p` is the last byte read. */
    method BlitBits(x: int, y: int, w: nat, data: seq<bv8>, off: nat, bg: Color, fg: Color) returns (p: nat)
      requires Shaped() && 0 <= x && x + w <= width && 0 <= y < height && (w > 0 ==> |data| > (off + w - 1) / 8)
      modifies fbuf
      ensures p == (off + w) / 8
      ensures forall u, v {:trigger On(u, v)} :: On(u, v) ==>
        fbuf[v, u] == if Inside(x, y, w, 1, u, v) then (if Bit(data, off + (u - x)) then fg else bg)
          else old(fbuf[v, u])
    {
      hide Bit, Shifted;
      p := off / 8;
      var nb := 8 - off % 8;
      var b := Fetch(data, p);
      b := Shifted(b, off % 8);
      for i := 0 to w
        invariant p == (off + i) / 8 && nb == 8 - (off + i) % 8 && (p < |data| ==> b == Shifted(data[p], 8 - nb))
        invariant forall u, v {:trigger On(u, v)} :: On(u, v) ==>
          fbuf[v, u] == if Inside(x, y, i, 1, u, v) then (if Bit(data, off + (u - x)) then fg else bg)
            else old(fbuf[v, u])
      {
        LowBit(data, off + i);
        fbuf[y, x + i] := if b & 1 == 1 then fg else bg;
        nb := nb - 1;
        if nb == 0 {
          p := p + 1;
          b := Fetch(data, p);
          nb := 8;
          NoShift(b);
        } else {
          OneMore(data[p], 7 - nb);
          b := b >> 1;
        }
      }
    }

    /**
      fb_bmp_hline_32: the same picture whatever lies behind the bitmap. A byte that no pixel of the row needs is read
      if and only if the last pixel ends a byte or the row is empty.
     */
    method BmpHLine(x: int, y: int, w: nat, data: seq<bv8>, off: nat, bg: Color, fg: Color) returns (p: nat)
      requires Valid() && 0 <= x && x + w <= width && 0 <= y < height && (w > 0 ==> |data| > (off + w - 1) / 8)
      modifies fbuf, back
      ensures Valid()
      ensures forall u, v {:trigger On(u, v)} :: On(u, v) ==>
        Logical(u, v) == if Inside(x, y, w, 1, u, v) then (if Bit(data, off + (u - x)) then fg else bg)
          else old(Logical(u, v))
      ensures !Needed(off, w, p) <==> w == 0 || (off + w) % 8 == 0
    {
      hide Bit, Shifted;
      p := BlitBits(x, y, w, data, off, bg, fg);
      Redraw(x, y, w, 1);
      OverRead(off, w);
    }

    /**
      cpy32fw or cpy32bk on one row: a move within a row goes in the direction that reads each pixel before writing
      it.
     */
    method CopyRow(dx: int, dy: int, sx: int, sy: int, w: nat, backward: bool)
      requires Shaped() && 0 <= dx && dx + w <= width && 0 <= sx && sx + w <= width && 0 <= dy < height
      requires 0 <= sy < height
      requires dy == sy ==> if backward then dx >= sx else dx <= sx
      modifies fbuf
      ensures forall u, v {:trigger On(u, v)} :: On(u, v) ==>
        fbuf[v, u] == if Inside(dx, dy, w, 1, u, v) then old(fbuf[sy, u - dx + sx]) else old(fbuf[v, u])
    {
      if backward {
        for i := w downto 0
          invariant forall u, v {:trigger On(u, v)} :: On(u, v) ==>
            fbuf[v, u] == if Inside(dx + i, dy, w - i, 1, u, v) then old(fbuf[sy, u - dx + sx]) else old(fbuf[v, u])
        {
          assert On(sx + i, sy);
          fbuf[dy, dx + i] := fbuf[sy, sx + i];
        }
      } else {
        for i := 0 to w
          invariant forall u, v {:trigger On(u, v)} :: On(u, v) ==>
            fbuf[v, u] == if Inside(dx, dy, i, 1, u, v) then old(fbuf[sy, u - dx + sx]) else old(fbuf[v, u])
        {
          assert On(sx + i, sy);
          fbuf[dy, dx + i] := fbuf[sy, sx + i];
        }
      }
    }

    /** The row loops of fb_copy_32 and fb_copy_rev_32. */
    method CopyRows(x0: int, y0: int, x1: int, y1: int, w: nat, h: nat)
      requires Shaped() && 0 <= x0 && x0 + w <= width && 0 <= x1 && x1 + w <= width
      requires 0 <= y0 && y0 + h <= height && 0 <= y1 && y1 + h <= height
      modifies fbuf
      ensures forall u, v {:trigger On(u, v)} :: On(u, v) ==>
        fbuf[v, u] == if Inside(x0, y0, w, h, u, v) then old(fbuf[v - y0 + y1, u - x0 + x1]) else old(fbuf[v, u])
    {
      if y0 > y1 || (y0 == y1 && x0 > x1) {
        for y := h downto 0
          invariant forall u, v {:trigger On(u, v)} :: On(u, v) ==>
            fbuf[v, u] == if Inside(x0, y0 + y, w, h - y, u, v) then old(fbuf[v - y0 + y1, u - x0 + x1])
              else old(fbuf[v, u])
        {
          CopyRow(x0, y0 + y, x1, y1 + y, w, true);
          forall u, v | On(u, v) && Inside(x0, y0 + y, w, 1, u, v)
            ensures fbuf[v, u] == old(fbuf[v - y0 + y1, u - x0 + x1])
          {
            assert On(u - x0 + x1, y1 + y);
          }
        }
      } else {
        for y := 0 to h
          invariant forall u, v {:trigger On(u, v)} :: On(u, v) ==>
            fbuf[v, u] == if Inside(x0, y0, w, y, u, v) then old(fbuf[v - y0 + y1, u - x0 + x1]) else old(fbuf[v, u])
        {
          CopyRow(x0, y0 + y, x1, y1 + y, w, false);
          forall u, v | On(u, v) && Inside(x0, y0 + y, w, 1, u, v)
            ensures fbuf[v, u] == old(fbuf[v - y0 + y1, u - x0 + x1])
          {
            assert On(u - x0 + x1, y1 + y);
          }
        }
      }
    }

    /** fb_copy_32: the picture changes as if the whole rectangle moved at once, whatever overlaps. */
    method Copy(x0: int, y0: int, x1: int, y1: int, w: nat, h: nat)
      requires Valid() && 0 <= x0 && x0 + w <= width && 0 <= x1 && x1 + w <= width
      requires 0 <= y0 && y0 + h <= height && 0 <= y1 && y1 + h <= height
      modifies this`hideCount, fbuf, back
      ensures Valid() && hideCount == old(hideCount)
      ensures forall u, v {:trigger On(u, v)} :: On(u, v) ==>
        Logical(u, v) == if Inside(x0, y0, w, h, u, v) then old(Logical(u - x0 + x1, v - y0 + y1))
          else old(Logical(u, v))
    {
      HidePtr();
      CopyRows(x0, y0, x1, y1, w, h);
      forall u, v | On(u, v) && Inside(x0, y0, w, h, u, v)
        ensures On(u - x0 + x1, v - y0 + y1) && fbuf[v, u] == old(Logical(u - x0 + x1, v - y0 + y1))
      {
        assert On(u - x0 + x1, v - y0 + y1);
      }
      ShowPtr();
    }
  }

  // ----- bitmaps -----

  /** A byte shifted right, bit by bit. */
  function Shifted(b: bv8, n: nat): bv8 {
    if n == 0 then b else Shifted(b, n - 1) >> 1
  }

  /** Bit `k` of a bitmap, low bit of each byte first. */
  predicate Bit(data: seq<bv8>, k: nat)
    requires k / 8 < |data|
  {
    Shifted(data[k / 8], k % 8) & 1 == 1
  }

  /** The byte of pixel `i` of a row. */
  function ByteOf(off: nat, i: nat): nat {
    (off + i) / 8
  }

  /** Some pixel of a row of `w` pixels needs byte `p`. */
  ghost predicate Needed(off: nat, w: nat, p: nat) {
    exists i: nat :: i < w && ByteOf(off, i) == p
  }

  lemma OverRead(off: nat, w: nat)
    ensures !Needed(off, w, (off + w) / 8) <==> w == 0 || (off + w) % 8 == 0
  {
    if w > 0 && (off + w) % 8 != 0 {
      assert ByteOf(off, w - 1) == (off + w) / 8;
    }
  }

  lemma LowBit(data: seq<bv8>, k: nat)
    requires k / 8 < |data|
    ensures Bit(data, k) <==> Shifted(data[k / 8], k % 8) & 1 == 1
  {}

  lemma NoShift(b: bv8)
    ensures Shifted(b, 0) == b
  {}

  lemma OneMore(b: bv8, n: nat)
    ensures Shifted(b, n + 1) == Shifted(b, n) >> 1
  {}
}
