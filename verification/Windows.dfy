/** Windows: a grid of pixels that is read one by one, and a copy in the format of the screen. */
module Windows {
  import opened Geometry
  import opened Compositing
  import opened FrameBuffers

  datatype Stroke = Stroke(pos: Vector, color: Color)

  class Window {
    const width: nat
    const height: nat
    const data: array2<Color>
    const shadow: FrameBuffer
    var transparent: Option<Color>

    ghost predicate Valid() {
      && shadow.Valid() && shadow.width == width && shadow.height == height
      && data.Length0 == height && data.Length1 == width
    }

    constructor (width: nat, height: nat, format: PixelFormat)
      ensures Valid() && Synced() && transparent == None
      ensures fresh(data) && fresh(shadow.memory)
      ensures this.width == width && this.height == height && shadow.format == format
    {
      this.width, this.height, transparent := width, height, None;
      data := new Color[height, width]((y, x) => Color(0, 0, 0));
      shadow := new FrameBuffer(format, width, height);
    }

    /** The grid and its copy are the same. */
    ghost predicate Synced()
      requires Valid()
      reads data, shadow.memory
    {
      forall q {:trigger shadow.At(q)} :: shadow.OnScreen(q) ==> data[q.y, q.x] == shadow.At(q)
    }

    function At(q: Vector): Color
      requires Valid() && shadow.OnScreen(q)
      reads data
    {
      data[q.y, q.x]
    }

    /** What the window shows at a point of the screen if its origin is at pos: a window without transparent color shows
        its copy, one with such a color shows its grid. */
    ghost function SampleAt(pos: Vector, p: Vector): Sample
      requires Valid()
      reads this, data, shadow.memory
    {
      var q := Minus(p, pos);
      Sample(transparent.Some?,
             if !shadow.OnScreen(q) then None
             else if transparent.None? then Some(shadow.At(q))
             else if At(q) == transparent.value then None
             else Some(At(q)))
    }

    /** The window is drawn on a point: its pixel there is not of the transparent color or, if there is none such, the point is in
        the area. */
    ghost predicate Covers(pos: Vector, area: Rectangle, p: Vector)
      requires Valid()
      reads this, data
    {
      && pos.x <= p.x < pos.x + width && pos.y <= p.y < pos.y + height
      && if transparent.Some? then data[p.y - pos.y, p.x - pos.x] != transparent.value else In(area, p)
    }

    ghost function Pixel(x: nat, y: nat): Color
      requires Valid() && x < width && y < height
      reads this, data, shadow.memory
    {
      if transparent.Some? then data[y, x] else shadow.At(Vector(x, y))
    }

    method DrawTo(dst: FrameBuffer, pos: Vector, area: Rectangle)
      requires Valid() && dst.Valid() && dst.memory != shadow.memory && dst.format == shadow.format && Proper(area)
      modifies dst.memory
      ensures forall p {:trigger dst.At(p)} :: dst.OnScreen(p) ==>
                dst.At(p) == Over(SampleAt(pos, p), In(area, p), old(dst.At(p)))
      ensures forall p {:trigger dst.At(p)} :: dst.OnScreen(p) ==>
                dst.At(p) == if Covers(pos, area, p) then Pixel(p.x - pos.x, p.y - pos.y) else old(dst.At(p))
    {
      hide Meet, In;
      if transparent.None? {
        DrawOpaque(dst, pos, area);
      } else {
        DrawThrough(dst, pos);
      }
    }

    method DrawOpaque(dst: FrameBuffer, pos: Vector, area: Rectangle)
      requires Valid() && dst.Valid() && dst.memory != shadow.memory && dst.format == shadow.format && Proper(area)
      requires transparent.None?
      modifies dst.memory
      ensures forall p {:trigger dst.At(p)} :: dst.OnScreen(p) ==>
                dst.At(p) == Over(SampleAt(pos, p), In(area, p), old(dst.At(p)))
    {
      var windowArea := Rectangle(pos, Vector(width, height));
      var common := Meet(area, windowArea);
      MeetIs(area, windowArea);
      hide Meet;
      var _ := dst.Copy(common.pos, shadow, Rectangle(Minus(common.pos, pos), common.size));
      forall p | dst.OnScreen(p)
        ensures dst.At(p) == Over(SampleAt(pos, p), In(area, p), old(dst.At(p)))
      {
        assert Plus(Minus(p, common.pos), Minus(common.pos, pos)) == Minus(p, pos);
        assert In(common, p) <==> In(area, p) && In(windowArea, p);
      }
    }

    /** Pixel by pixel, without regard to the area. */
    method DrawThrough(dst: FrameBuffer, pos: Vector)
      requires Valid() && dst.Valid() && dst.memory != shadow.memory && transparent.Some?
      modifies dst.memory
      ensures forall p {:trigger dst.At(p)} :: dst.OnScreen(p) ==> dst.At(p) == Over(SampleAt(pos, p), false, old(dst.At(p)))
    {
      hide dst.At;
      var top, bottom := Max(0, 0 - pos.y), Min(height, dst.height - pos.y);
      var y := top;
      while y < bottom
        invariant top <= y && (top <= bottom ==> y <= bottom)
        invariant forall p {:trigger dst.At(p)} :: dst.OnScreen(p) ==>
                    dst.At(p) == if p.y < pos.y + y then Over(SampleAt(pos, p), false, old(dst.At(p))) else old(dst.At(p))
      {
        DrawThroughRow(dst, pos, y);
        y := y + 1;
      }
    }

    method DrawThroughRow(dst: FrameBuffer, pos: Vector, y: nat)
      requires Valid() && dst.Valid() && dst.memory != shadow.memory && transparent.Some?
      requires y < height && 0 <= pos.y + y < dst.height
      modifies dst.memory
      ensures forall p {:trigger dst.At(p)} :: dst.OnScreen(p) ==>
                dst.At(p) == if p.y == pos.y + y then Over(SampleAt(pos, p), false, old(dst.At(p))) else old(dst.At(p))
    {
      hide dst.At;
      var left, right := Max(0, 0 - pos.x), Min(width, dst.width - pos.x);
      var x := left;
      while x < right
        invariant left <= x && (left <= right ==> x <= right)
        invariant forall p {:trigger dst.At(p)} :: dst.OnScreen(p) ==>
                    dst.At(p) == if p.y == pos.y + y && p.x < pos.x + x then Over(SampleAt(pos, p), false, old(dst.At(p)))
                                 else old(dst.At(p))
      {
        var c := At(Vector(x, y));
        assert Minus(Plus(pos, Vector(x, y)), pos) == Vector(x, y);
        if c != transparent.value {
          dst.Write(Plus(pos, Vector(x, y)), c);
        }
        x := x + 1;
      }
    }

    method SetTransparentColor(c: Option<Color>)
      modifies this`transparent
      ensures transparent == c
    {
      transparent := c;
    }

    /** A pixel is written to the grid and to the copy. */
    method Write(p: Vector, c: Color)
      requires Valid() && shadow.OnScreen(p)
      modifies data, shadow.memory
      ensures At(p) == c && shadow.At(p) == c
      ensures forall q {:trigger At(q)} :: shadow.OnScreen(q) && q != p ==> At(q) == old(At(q))
      ensures forall q {:trigger shadow.At(q)} :: shadow.OnScreen(q) && q != p ==> shadow.At(q) == old(shadow.At(q))
      ensures old(Synced()) ==> Synced()
    {
      data[p.y, p.x] := c;
      shadow.Write(p, c);
    }

    /** Pixels are written one after the other; a title or a text is drawn so. */
    method WriteAll(strokes: seq<Stroke>)
      requires Valid() && forall i :: 0 <= i < |strokes| ==> shadow.OnScreen(strokes[i].pos)
      modifies data, shadow.memory
      ensures old(Synced()) ==> Synced()
      ensures forall q {:trigger At(q)} :: shadow.OnScreen(q) ==>
                At(q) == LastStroke(strokes, q, old(At(q)))
    {
      hide LastStroke, shadow.At;
      LastStrokeNext(strokes[..0]);
      for i := 0 to |strokes|
        invariant old(Synced()) ==> Synced()
        invariant forall q {:trigger At(q)} :: shadow.OnScreen(q) ==> At(q) == LastStroke(strokes[..i], q, old(At(q)))
      {
        Write(strokes[i].pos, strokes[i].color);
        LastStrokeNext(strokes[..i + 1]);
        assert strokes[..i + 1][..i] == strokes[..i];
      }
      assert strokes[..|strokes|] == strokes;
    }

    /** A rectangle of the copy is moved; the grid does not follow. */
    method Move(dstPos: Vector, src: Rectangle)
      requires Valid() && shadow.Inside(src) && shadow.Inside(Rectangle(dstPos, src.size))
      modifies shadow.memory
      ensures forall q {:trigger shadow.At(q)} :: shadow.OnScreen(q) ==>
                shadow.At(q) == if In(Rectangle(dstPos, src.size), q) then old(shadow.At(Plus(Minus(q, dstPos), src.pos)))
                                else old(shadow.At(q))
    {
      shadow.Move(dstPos, src);
    }
  }

  /** The color of a pixel after strokes. */
  function LastStroke(strokes: seq<Stroke>, q: Vector, c: Color): Color {
    if strokes == [] then c
    else if strokes[|strokes| - 1].pos == q then strokes[|strokes| - 1].color
    else LastStroke(strokes[..|strokes| - 1], q, c)
  }

  lemma LastStrokeNext(strokes: seq<Stroke>)
    ensures forall q, c :: strokes == [] ==> LastStroke(strokes, q, c) == c
    ensures forall q, c {:trigger LastStroke(strokes, q, c)} :: strokes != [] ==>
              LastStroke(strokes, q, c) == if strokes[|strokes| - 1].pos == q then strokes[|strokes| - 1].color
                                           else LastStroke(strokes[..|strokes| - 1], q, c)
  {
  }
}
