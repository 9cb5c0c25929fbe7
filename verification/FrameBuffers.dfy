/** Pixels in memory, row after row. */
module FrameBuffers {
  import opened Geometry
  import opened Compositing

  datatype PixelFormat = RGB | BGR

  type Image = Vector -> Color

  datatype Error = Success | UnknownPixelFormat

  /** Where the pixel at (x, y) is, with `stride` pixels a scan line. */
  function Offset(stride: nat, x: int, y: int): int {
    stride * y + x
  }

  lemma Scale(s: nat, a: nat, b: nat)
    requires a <= b
    ensures s * a <= s * b
  {
  }

  lemma OffsetNext(stride: nat, x: int, y: int)
    ensures Offset(stride, x, y + 1) == Offset(stride, x, y) + stride
  {
  }

  lemma OffsetIn(stride: nat, height: nat, x: nat, y: nat)
    requires x < stride && y < height
    ensures 0 <= Offset(stride, x, y) < stride * height
  {
    Scale(stride, y + 1, height);
    OffsetNext(stride, x, y);
  }

  /** Rows do not overlap. */
  lemma OffsetApart(stride: nat, x: nat, y: nat, x': nat, y': nat)
    requires x < stride && x' < stride && y < y'
    ensures Offset(stride, x, y) < Offset(stride, x', y') && Offset(stride, x', y') - Offset(stride, x, y) >= stride + x' - x
  {
    Scale(stride, y + 1, y');
    OffsetNext(stride, x, y);
  }

  /** Offsets tell pixels apart; the pixels from (a, b) on, n in the row, are those at n offsets. */
  lemma OffsetRow(stride: nat, a: nat, b: nat, n: nat, x: nat, y: nat)
    requires a + n <= stride && x < stride
    ensures Offset(stride, a, b) <= Offset(stride, x, y) < Offset(stride, a, b) + n <==> y == b && a <= x < a + n
    ensures Offset(stride, x, b) - Offset(stride, a, b) == x - a
  {
    if n > 0 && y < b {
      OffsetApart(stride, x, y, a, b);
    } else if n > 0 && b < y {
      OffsetApart(stride, a + n - 1, b, x, y);
    }
  }

  lemma OffsetsIn(stride: nat, height: nat, a: nat, b: nat, n: nat)
    requires 0 < n && a + n <= stride && b < height
    ensures 0 <= Offset(stride, a, b) && Offset(stride, a, b) + n <= stride * height
  {
    OffsetIn(stride, height, a, b);
    OffsetIn(stride, height, a + n - 1, b);
    OffsetRow(stride, a, b, n, a + n - 1, b);
  }

  /** n pixels are copied to where they do not overlap. */
  method MemCopy(dst: array<Color>, d: int, src: array<Color>, s: int, n: nat)
    requires n > 0 ==> 0 <= d && d + n <= dst.Length && 0 <= s && s + n <= src.Length
    requires n > 0 && dst == src ==> d + n <= s || s + n <= d
    modifies dst
    ensures forall i :: 0 <= i < dst.Length ==> dst[i] == if d <= i < d + n then old(src[s + i - d]) else old(dst[i])
  {
    for i := 0 to n
      invariant forall j :: 0 <= j < dst.Length ==> dst[j] == if d <= j < d + i then old(src[s + j - d]) else old(dst[j])
    {
      dst[d + i] := src[s + i];
    }
  }

  /** n pixels are copied to where they may overlap. */
  method MemMove(a: array<Color>, d: int, s: int, n: nat)
    requires n > 0 ==> 0 <= d && d + n <= a.Length && 0 <= s && s + n <= a.Length
    modifies a
    ensures forall i :: 0 <= i < a.Length ==> a[i] == if d <= i < d + n then old(a[s + i - d]) else old(a[i])
  {
    if n > 0 {
      forall i | 0 <= i < n {
        a[d + i] := a[s + i];
      }
    }
  }

  class FrameBuffer {
    const format: PixelFormat
    const width: nat
    const height: nat
    const stride: nat
    const memory: array<Color>

    ghost predicate Valid() {
      width <= stride && memory.Length == stride * height
    }

    /** A buffer of its own memory has no room between its rows. */
    constructor (format: PixelFormat, width: nat, height: nat)
      ensures Valid() && fresh(memory)
      ensures this.format == format && this.width == width && this.height == height
      ensures forall p {:trigger At(p)} :: OnScreen(p) ==> At(p) == Color(0, 0, 0)
    {
      this.format, this.width, this.height, stride := format, width, height, width;
      memory := new Color[width * height](i => Color(0, 0, 0));
      new;
      hide Offset;
      forall p | OnScreen(p)
        ensures At(p) == Color(0, 0, 0)
      {
        OffsetIn(stride, this.height, p.x, p.y);
      }
    }

    predicate OnScreen(p: Vector) {
      0 <= p.x < width && 0 <= p.y < height
    }

    function At(p: Vector): Color
      requires Valid() && OnScreen(p)
      reads memory
    {
      OffsetIn(stride, height, p.x, p.y);
      memory[Offset(stride, p.x, p.y)]
    }

    /** The pixels as they are now. */
    ghost function Picture(): Image
      requires Valid()
      reads memory
    {
      var m := memory[..];
      (p: Vector) => var k := Offset(stride, p.x, p.y); if 0 <= k < |m| then m[k] else Color(0, 0, 0)
    }

    lemma PictureIs()
      requires Valid()
      ensures forall p {:trigger At(p)} {:trigger Picture()(p)} :: OnScreen(p) ==> At(p) == Picture()(p)
    {
      forall p | OnScreen(p)
        ensures At(p) == Picture()(p)
      {
        OffsetIn(stride, height, p.x, p.y);
      }
    }

    function Outline(): Rectangle {
      Rectangle(Vector(0, 0), Vector(width, height))
    }

    method Write(p: Vector, c: Color)
      requires Valid() && OnScreen(p)
      modifies memory
      ensures forall q {:trigger At(q)} :: OnScreen(q) ==> At(q) == if q == p then c else old(At(q))
    {
      OffsetIn(stride, height, p.x, p.y);
      forall q | OnScreen(q)
        ensures Offset(stride, q.x, q.y) == Offset(stride, p.x, p.y) <==> q == p
      {
        OffsetRow(stride, p.x, p.y, 1, q.x, q.y);
      }
      hide Offset;
      memory[Offset(stride, p.x, p.y)] := c;
    }

    /** What is copied: the part of the area that exists in the source and has a place here. */
    ghost predicate Copied(dstPos: Vector, src: FrameBuffer, area: Rectangle, p: Vector) {
      var q := Plus(Minus(p, dstPos), area.pos);
      OnScreen(p) && src.OnScreen(q) && In(area, q)
    }

    /** One row of a copy, from (sx, sy) of the source to (dx, dy). */
    method CopyRow(dx: int, dy: int, src: FrameBuffer, sx: int, sy: int, n: nat, d: int, s: int)
      requires Valid() && src.Valid() && src.memory != memory
      requires n > 0 ==> 0 <= dx && dx + n <= width && 0 <= dy < height
      requires n > 0 ==> 0 <= sx && sx + n <= src.width && 0 <= sy < src.height
      requires d == Offset(stride, dx, dy) && s == Offset(src.stride, sx, sy)
      modifies memory
      ensures forall p {:trigger At(p)} :: OnScreen(p) ==>
                At(p) == if p.y == dy && dx <= p.x < dx + n then src.At(Vector(p.x - dx + sx, sy)) else old(At(p))
    {
      hide Offset;
      if n > 0 {
        OffsetsIn(stride, height, dx, dy, n);
        OffsetsIn(src.stride, src.height, sx, sy, n);
      }
      forall p | OnScreen(p)
        ensures 0 <= Offset(stride, p.x, p.y) < memory.Length
        ensures d <= Offset(stride, p.x, p.y) < d + n <==> p.y == dy && dx <= p.x < dx + n
        ensures p.y == dy && dx <= p.x < dx + n ==>
                  Offset(src.stride, p.x - dx + sx, sy) == s + Offset(stride, p.x, p.y) - d
      {
        OffsetIn(stride, height, p.x, p.y);
        if n > 0 {
          OffsetRow(stride, dx, dy, n, p.x, p.y);
        }
        if p.y == dy && dx <= p.x < dx + n {
          OffsetRow(src.stride, sx, sy, n, p.x - dx + sx, sy);
        }
      }
      MemCopy(memory, d, src.memory, s, n);
    }

    method Copy(dstPos: Vector, src: FrameBuffer, area: Rectangle) returns (err: Error)
      requires Valid() && src.Valid() && src.memory != memory && Proper(area)
      modifies memory
      ensures err == if format == src.format then Success else UnknownPixelFormat
      ensures forall p {:trigger At(p)} :: OnScreen(p) ==>
                At(p) == if err == Success && Copied(dstPos, src, area, p) then src.At(Plus(Minus(p, dstPos), area.pos))
                         else old(At(p))
    {
      hide At, Valid, Copied;
      if format != src.format {
        return UnknownPixelFormat;
      }
      var shifted := Rectangle(dstPos, area.size);
      var srcOutline := Rectangle(Minus(dstPos, area.pos), Vector(src.width, src.height));
      var copyArea := Meet(Meet(Outline(), srcOutline), shifted);
      var start := Minus(copyArea.pos, Minus(dstPos, area.pos));
      CopyAreaIs(dstPos, src, area, copyArea, start);
      CopyRows(copyArea, src, start);
      err := Success;
    }

    lemma CopyAreaIs(dstPos: Vector, src: FrameBuffer, area: Rectangle, copyArea: Rectangle, start: Vector)
      requires Proper(area) && start == Minus(copyArea.pos, Minus(dstPos, area.pos))
      requires copyArea == Meet(Meet(Outline(), Rectangle(Minus(dstPos, area.pos), Vector(src.width, src.height))),
                                Rectangle(dstPos, area.size))
      ensures Proper(copyArea)
      ensures forall p :: In(copyArea, p) <==> Copied(dstPos, src, area, p)
      ensures forall p :: Plus(Minus(p, copyArea.pos), start) == Plus(Minus(p, dstPos), area.pos)
      ensures forall p :: In(copyArea, p) ==> OnScreen(p) && src.OnScreen(Plus(Minus(p, copyArea.pos), start))
    {
      var srcOutline, shifted := Rectangle(Minus(dstPos, area.pos), Vector(src.width, src.height)), Rectangle(dstPos, area.size);
      var common := Meet(Outline(), srcOutline);
      MeetIs(Outline(), srcOutline);
      MeetIs(common, shifted);
      hide Meet;
      Shifted(copyArea.pos, start, dstPos, area.pos);
      forall p
        ensures In(copyArea, p) <==> Copied(dstPos, src, area, p)
        ensures In(copyArea, p) ==> OnScreen(p) && src.OnScreen(Plus(Minus(p, copyArea.pos), start))
      {
        assert In(copyArea, p) <==> In(Outline(), p) && In(srcOutline, p) && In(shifted, p);
      }
    }

    /** The rows of an area, copied from top to bottom through pointers that move on by a scan line. */
    method CopyRows(area: Rectangle, src: FrameBuffer, start: Vector)
      requires Valid() && src.Valid() && src.memory != memory && Proper(area)
      requires forall p :: In(area, p) ==> OnScreen(p) && src.OnScreen(Plus(Minus(p, area.pos), start))
      modifies memory
      ensures forall p {:trigger At(p)} :: OnScreen(p) ==>
                At(p) == if In(area, p) then src.At(Plus(Minus(p, area.pos), start)) else old(At(p))
    {
      hide Offset, At, Valid;
      var d, s := Offset(stride, area.pos.x, area.pos.y), Offset(src.stride, start.x, start.y);
      var n := area.size.x;
      for y := 0 to area.size.y
        invariant d == Offset(stride, area.pos.x, area.pos.y + y) && s == Offset(src.stride, start.x, start.y + y)
        invariant forall p {:trigger At(p)} :: OnScreen(p) ==>
                    At(p) == if In(area, p) && p.y < area.pos.y + y then src.At(Plus(Minus(p, area.pos), start)) else old(At(p))
      {
        OffsetNext(stride, area.pos.x, area.pos.y + y);
        OffsetNext(src.stride, start.x, start.y + y);
        if n > 0 {
          RowInside(area, src, start, y);
        }
        CopyRow(area.pos.x, area.pos.y + y, src, start.x, start.y + y, n, d, s);
        d, s := d + stride, s + src.stride;
      }
    }

    lemma RowInside(area: Rectangle, src: FrameBuffer, start: Vector, y: nat)
      requires y < area.size.y && 0 < area.size.x
      requires forall p :: In(area, p) ==> OnScreen(p) && src.OnScreen(Plus(Minus(p, area.pos), start))
      ensures 0 <= area.pos.x && area.pos.x + area.size.x <= width && 0 <= area.pos.y + y < height
      ensures 0 <= start.x && start.x + area.size.x <= src.width && 0 <= start.y + y < src.height
    {
      assert In(area, Vector(area.pos.x, area.pos.y + y));
      assert In(area, Vector(area.pos.x + area.size.x - 1, area.pos.y + y));
    }

    /** One row of a move, to (dx, dy) from (sx, sy) of the same buffer; in different rows nothing overlaps. */
    method MoveRow(dx: int, dy: int, sx: int, sy: int, n: nat, d: int, s: int)
      requires Valid()
      requires n > 0 ==> 0 <= dx && dx + n <= width && 0 <= dy < height && 0 <= sx && sx + n <= width && 0 <= sy < height
      requires d == Offset(stride, dx, dy) && s == Offset(stride, sx, sy)
      modifies memory
      ensures forall p {:trigger At(p)} :: OnScreen(p) ==>
                At(p) == if p.y == dy && dx <= p.x < dx + n then old(At(Vector(p.x - dx + sx, sy))) else old(At(p))
    {
      hide Offset;
      RowPlaces(dx, dy, sx, sy, n, d, s);
      if dy == sy {
        MemMove(memory, d, s, n);
      } else {
        MemCopy(memory, d, memory, s, n);
      }
    }

    /** What a point of the destination gets. */
    lemma MovedPoint(dstPos: Vector, src: Rectangle, p: Vector)
      ensures In(Rectangle(dstPos, src.size), p) <==>
              dstPos.x <= p.x < dstPos.x + src.size.x && dstPos.y <= p.y < dstPos.y + src.size.y
      ensures Plus(Minus(p, dstPos), src.pos) == Vector(p.x - dstPos.x + src.pos.x, p.y - dstPos.y + src.pos.y)
    {
    }

    /** Where a row's points are in the buffer. */
    lemma RowPlaces(dx: int, dy: int, sx: int, sy: int, n: nat, d: int, s: int)
      requires Valid() && d == Offset(stride, dx, dy) && s == Offset(stride, sx, sy)
      requires n > 0 ==> 0 <= dx && dx + n <= width && 0 <= dy < height && 0 <= sx && sx + n <= width && 0 <= sy < height
      ensures n > 0 ==> 0 <= d && d + n <= memory.Length && 0 <= s && s + n <= memory.Length
      ensures n > 0 && dy != sy ==> d + n <= s || s + n <= d
      ensures forall p | OnScreen(p) ::
                && 0 <= Offset(stride, p.x, p.y) < memory.Length
                && (d <= Offset(stride, p.x, p.y) < d + n <==> p.y == dy && dx <= p.x < dx + n)
                && (p.y == dy && dx <= p.x < dx + n ==> Offset(stride, p.x - dx + sx, sy) == s + Offset(stride, p.x, p.y) - d)
    {
      hide Offset;
      if n > 0 {
        OffsetsIn(stride, height, dx, dy, n);
        OffsetsIn(stride, height, sx, sy, n);
        RowsApart(dx, dy, sx, sy, n);
      }
      forall p | OnScreen(p)
        ensures 0 <= Offset(stride, p.x, p.y) < memory.Length
        ensures d <= Offset(stride, p.x, p.y) < d + n <==> p.y == dy && dx <= p.x < dx + n
        ensures p.y == dy && dx <= p.x < dx + n ==> Offset(stride, p.x - dx + sx, sy) == s + Offset(stride, p.x, p.y) - d
      {
        OffsetIn(stride, height, p.x, p.y);
        if n > 0 {
          OffsetRow(stride, dx, dy, n, p.x, p.y);
        }
        if p.y == dy && dx <= p.x < dx + n {
          OffsetRow(stride, sx, sy, n, p.x - dx + sx, sy);
        }
      }
    }

    lemma RowsApart(dx: nat, dy: nat, sx: nat, sy: nat, n: nat)
      requires 0 < n && dx + n <= width && sx + n <= width && Valid()
      ensures dy < sy ==> Offset(stride, dx, dy) + n <= Offset(stride, sx, sy)
      ensures sy < dy ==> Offset(stride, sx, sy) + n <= Offset(stride, dx, dy)
    {
      if dy < sy {
        OffsetApart(stride, dx + n - 1, dy, sx, sy);
        OffsetRow(stride, dx, dy, n, dx + n - 1, dy);
      } else if sy < dy {
        OffsetApart(stride, sx + n - 1, sy, dx, dy);
        OffsetRow(stride, sx, sy, n, sx + n - 1, sy);
      }
    }

    ghost predicate Inside(r: Rectangle) {
      Proper(r) && (r.size.x > 0 && r.size.y > 0 ==>
        0 <= r.pos.x && r.pos.x + r.size.x <= width && 0 <= r.pos.y && r.pos.y + r.size.y <= height)
    }

    /** A rectangle is moved, also to where it overlaps itself: the rows are taken in the order that reads each one before
        it is written. */
    method Move(dstPos: Vector, src: Rectangle)
      requires Valid() && Inside(src) && Inside(Rectangle(dstPos, src.size))
      modifies memory
      ensures forall p {:trigger At(p)} :: OnScreen(p) ==>
                At(p) == if In(Rectangle(dstPos, src.size), p) then old(At(Plus(Minus(p, dstPos), src.pos))) else old(At(p))
    {
      if dstPos.y < src.pos.y {
        MoveUp(dstPos, src);
      } else if dstPos.y == src.pos.y {
        MoveAcross(dstPos, src);
      } else {
        MoveDown(dstPos, src);
      }
    }

    /** Of two pictures, the second has the destination's rows from one up to another as the first had the source's, and all
        else as it was. */
    ghost predicate RowsMoved(pic: Image, now: Image, dstPos: Vector, src: Rectangle, from: int, to: int) {
      forall p {:trigger now(p)} :: OnScreen(p) ==>
        now(p) == if In(Rectangle(dstPos, src.size), p) && from <= p.y < to then pic(Plus(Minus(p, dstPos), src.pos)) else pic(p)
    }

    lemma NoRowMoved(dstPos: Vector, src: Rectangle, row: int)
      requires Valid()
      ensures RowsMoved(Picture(), Picture(), dstPos, src, row, row)
      ensures forall p {:trigger At(p)} {:trigger Picture()(p)} :: OnScreen(p) ==> At(p) == Picture()(p)
    {
      PictureIs();
    }

    /** One more row, read before it is written. */
    lemma NextRow(pic: Image, was: Image, now: Image, dstPos: Vector, src: Rectangle, y: nat, from: int, to: int, from': int, to': int)
      requires Inside(src) && Inside(Rectangle(dstPos, src.size)) && y < src.size.y
      requires RowsMoved(pic, was, dstPos, src, from, to) && !(from <= src.pos.y + y < to)
      requires if dstPos.y + y == to then from' == from <= to && to' == to + 1 else dstPos.y + y == from - 1 == from' < to == to'
      requires forall p {:trigger now(p)} :: OnScreen(p) ==>
                 now(p) == if p.y == dstPos.y + y && dstPos.x <= p.x < dstPos.x + src.size.x
                           then was(Vector(p.x - dstPos.x + src.pos.x, src.pos.y + y)) else was(p)
      ensures RowsMoved(pic, now, dstPos, src, from', to')
    {
      hide Inside, In, Plus, Minus;
      forall p | OnScreen(p)
        ensures now(p) == if In(Rectangle(dstPos, src.size), p) && from' <= p.y < to'
                          then pic(Plus(Minus(p, dstPos), src.pos)) else pic(p)
      {
        MovedPoint(dstPos, src, p);
        if p.y == dstPos.y + y && dstPos.x <= p.x < dstPos.x + src.size.x {
          SourceInside(dstPos, src, p);
          assert OnScreen(Vector(p.x - dstPos.x + src.pos.x, src.pos.y + y));
        }
      }
    }

    method MoveRowOf(ghost pic: Image, dstPos: Vector, src: Rectangle, y: nat, d: int, s: int, ghost from: int, ghost to: int,
                     ghost from': int, ghost to': int)
      requires Valid() && Inside(src) && Inside(Rectangle(dstPos, src.size)) && y < src.size.y
      requires d == Offset(stride, dstPos.x, dstPos.y + y) && s == Offset(stride, src.pos.x, src.pos.y + y)
      requires RowsMoved(pic, Picture(), dstPos, src, from, to) && !(from <= src.pos.y + y < to)
      requires if dstPos.y + y == to then from' == from <= to && to' == to + 1 else dstPos.y + y == from - 1 == from' < to == to'
      modifies memory
      ensures RowsMoved(pic, Picture(), dstPos, src, from', to')
    {
      hide Offset, At, Valid, RowsMoved;
      ghost var was := Picture();
      PictureIs();
      MoveRow(dstPos.x, dstPos.y + y, src.pos.x, src.pos.y + y, src.size.x, d, s);
      PictureIs();
      NextRow(pic, was, Picture(), dstPos, src, y, from, to, from', to');
    }

    lemma SourceInside(dstPos: Vector, src: Rectangle, p: Vector)
      requires Inside(src) && In(Rectangle(dstPos, src.size), p)
      ensures OnScreen(Plus(Minus(p, dstPos), src.pos))
    {
    }

    lemma AllMoved(pic: Image, dstPos: Vector, src: Rectangle, from: int, to: int)
      requires Valid() && RowsMoved(pic, Picture(), dstPos, src, from, to) && Inside(src)
      requires from == dstPos.y && to == dstPos.y + src.size.y
      ensures forall p {:trigger At(p)} :: OnScreen(p) ==>
                && (In(Rectangle(dstPos, src.size), p) ==> OnScreen(Plus(Minus(p, dstPos), src.pos)))
                && At(p) == if In(Rectangle(dstPos, src.size), p) then pic(Plus(Minus(p, dstPos), src.pos)) else pic(p)
    {
      hide At, Valid, Inside, In, Plus, Minus;
      PictureIs();
      forall p | OnScreen(p)
        ensures In(Rectangle(dstPos, src.size), p) ==> OnScreen(Plus(Minus(p, dstPos), src.pos)) && from <= p.y < to
        ensures At(p) == Picture()(p)
      {
        MovedPoint(dstPos, src, p);
        if In(Rectangle(dstPos, src.size), p) {
          SourceInside(dstPos, src, p);
        }
      }
    }

    /** Up: from the top row. */
    method MoveUp(dstPos: Vector, src: Rectangle)
      requires Valid() && Inside(src) && Inside(Rectangle(dstPos, src.size)) && dstPos.y < src.pos.y
      modifies memory
      ensures forall p {:trigger At(p)} :: OnScreen(p) ==>
                At(p) == if In(Rectangle(dstPos, src.size), p) then old(At(Plus(Minus(p, dstPos), src.pos))) else old(At(p))
    {
      hide Offset, At, Valid, RowsMoved, Plus, Minus, In;
      ghost var pic := Picture();
      NoRowMoved(dstPos, src, dstPos.y);
      var d, s := Offset(stride, dstPos.x, dstPos.y), Offset(stride, src.pos.x, src.pos.y);
      for y := 0 to src.size.y
        invariant d == Offset(stride, dstPos.x, dstPos.y + y) && s == Offset(stride, src.pos.x, src.pos.y + y)
        invariant RowsMoved(pic, Picture(), dstPos, src, dstPos.y, dstPos.y + y)
      {
        OffsetNext(stride, dstPos.x, dstPos.y + y);
        OffsetNext(stride, src.pos.x, src.pos.y + y);
        MoveRowOf(pic, dstPos, src, y, d, s, dstPos.y, dstPos.y + y, dstPos.y, dstPos.y + y + 1);
        d, s := d + stride, s + stride;
      }
      AllMoved(pic, dstPos, src, dstPos.y, dstPos.y + src.size.y);
    }

    /** Left or right. */
    method MoveAcross(dstPos: Vector, src: Rectangle)
      requires Valid() && Inside(src) && Inside(Rectangle(dstPos, src.size)) && dstPos.y == src.pos.y
      modifies memory
      ensures forall p {:trigger At(p)} :: OnScreen(p) ==>
                At(p) == if In(Rectangle(dstPos, src.size), p) then old(At(Plus(Minus(p, dstPos), src.pos))) else old(At(p))
    {
      hide Offset, At, Valid, RowsMoved, Plus, Minus, In;
      ghost var pic := Picture();
      NoRowMoved(dstPos, src, dstPos.y);
      var d, s := Offset(stride, dstPos.x, dstPos.y), Offset(stride, src.pos.x, src.pos.y);
      for y := 0 to src.size.y
        invariant d == Offset(stride, dstPos.x, dstPos.y + y) && s == Offset(stride, src.pos.x, src.pos.y + y)
        invariant RowsMoved(pic, Picture(), dstPos, src, dstPos.y, dstPos.y + y)
      {
        OffsetNext(stride, dstPos.x, dstPos.y + y);
        OffsetNext(stride, src.pos.x, src.pos.y + y);
        MoveRowOf(pic, dstPos, src, y, d, s, dstPos.y, dstPos.y + y, dstPos.y, dstPos.y + y + 1);
        d, s := d + stride, s + stride;
      }
      AllMoved(pic, dstPos, src, dstPos.y, dstPos.y + src.size.y);
    }

    /** Down: from the bottom row. */
    method MoveDown(dstPos: Vector, src: Rectangle)
      requires Valid() && Inside(src) && Inside(Rectangle(dstPos, src.size)) && src.pos.y < dstPos.y
      modifies memory
      ensures forall p {:trigger At(p)} :: OnScreen(p) ==>
                At(p) == if In(Rectangle(dstPos, src.size), p) then old(At(Plus(Minus(p, dstPos), src.pos))) else old(At(p))
    {
      hide Offset, At, Valid, RowsMoved, Plus, Minus, In;
      ghost var pic := Picture();
      ghost var bottom := dstPos.y + src.size.y;
      NoRowMoved(dstPos, src, bottom);
      var d := Offset(stride, dstPos.x, dstPos.y + src.size.y - 1);
      var s := Offset(stride, src.pos.x, src.pos.y + src.size.y - 1);
      for y := 0 to src.size.y
        invariant d == Offset(stride, dstPos.x, dstPos.y + src.size.y - 1 - y)
        invariant s == Offset(stride, src.pos.x, src.pos.y + src.size.y - 1 - y)
        invariant RowsMoved(pic, Picture(), dstPos, src, bottom - y, bottom)
      {
        var r := src.size.y - 1 - y;
        OffsetNext(stride, dstPos.x, dstPos.y + r - 1);
        OffsetNext(stride, src.pos.x, src.pos.y + r - 1);
        MoveRowOf(pic, dstPos, src, r, d, s, bottom - y, bottom, bottom - y - 1, bottom);
        d, s := d - stride, s - stride;
      }
      AllMoved(pic, dstPos, src, dstPos.y, bottom);
    }
  }

  lemma Shifted(pos: Vector, start: Vector, dstPos: Vector, areaPos: Vector)
    requires start == Minus(pos, Minus(dstPos, areaPos))
    ensures forall p :: Plus(Minus(p, pos), start) == Plus(Minus(p, dstPos), areaPos)
  {
  }
}
