/** Why transparency has to be topmost: three windows, of which the middle one has a transparent color. */
module ShownThrough {
  import opened Geometry
  import opened Compositing
  import opened FrameBuffers
  import opened Windows
  import opened LayerStacks
  import opened Layers

  const RED: Color := Color(255, 0, 0)
  const WHITE: Color := Color(255, 255, 255)

  /** Two points next to each other. At the right one the bottom and middle windows show black, and the top one red. */
  ghost predicate ThreeLayers(m: LayerManager)
    reads m, Footprint(m.stack)
  {
    && m.Valid() && m.Drawable() && m.screen.width == 2 && m.screen.height == 1 && |m.stack| == 3
    && (forall l <- m.stack :: Small(l)) && DistinctIds(m.stack)
    && Samples(m.stack, Vector(1, 0)) == RightPoint()
  }

  function RightPoint(): seq<Sample> {
    [Sample(false, Some(BLACK)), Sample(true, Some(BLACK)), Sample(false, Some(RED))]
  }

  lemma RightPointIs()
    ensures Paint(RightPoint(), BLACK) == RED && TopThrough(RightPoint()[1..]) == Some(BLACK)
    ensures !Restored(RightPoint(), 1, false, RED, RED, BLACK)
  {
    var s := RightPoint();
    assert s[1..] == [s[1], s[2]] && s[1..][..1] == [s[1]];
    assert TopThrough([s[1]]) == Some(BLACK);
  }

  /** The part of a window that is drawn if the area lies inside it. */
  lemma PartInside(l: Layer, area: Rectangle)
    requires Proper(area) && 0 <= area.pos.x && area.pos.x + area.size.x <= l.window.width
    requires 0 <= area.pos.y && area.pos.y + area.size.y <= l.window.height
    requires l.pos == Vector(0, 0)
    ensures l.Part(area) == area
  {
    MeetInside(l.Area(), Rectangle(Plus(area.pos, l.pos), area.size));
  }

  lemma MeetInside(a: Rectangle, b: Rectangle)
    requires Proper(b) && a.pos.x <= b.pos.x && b.pos.x + b.size.x <= a.pos.x + a.size.x
    requires a.pos.y <= b.pos.y && b.pos.y + b.size.y <= a.pos.y + a.size.y
    ensures Meet(a, b) == b
  {
  }

  const RIGHT: Vector := Vector(1, 0)
  const LEFT_AREA: Rectangle := Rectangle(Vector(0, 0), Vector(1, 1))

  lemma LeftInside(l: Layer)
    requires Small(l)
    ensures l.Part(LEFT_AREA) == LEFT_AREA && Proper(LEFT_AREA)
  {
    PartInside(l, LEFT_AREA);
  }

  lemma BeforeDrawing(m: LayerManager)
    requires ThreeLayers(m) && m.Composed()
    ensures m.Valid() && m.Drawable() && |m.stack| == 3 && m.HeightOf(m.stack[1].id) == 1 && m.screen.OnScreen(RIGHT)
    ensures m.stack[1].Part(LEFT_AREA) == LEFT_AREA && Samples(m.stack, RIGHT) == RightPoint()
    ensures m.back.Picture()(RIGHT) == RED && m.screen.Picture()(RIGHT) == RED && Proper(LEFT_AREA)
  {
    ThreeIs(m);
    hide *;
    LeftInside(m.stack[1]);
    RightPointIs();
    RightIs(m);
  }

  lemma ThreeIs(m: LayerManager)
    requires ThreeLayers(m)
    ensures m.Valid() && m.Drawable() && |m.stack| == 3 && m.HeightOf(m.stack[1].id) == 1 && m.screen.OnScreen(RIGHT)
    ensures Small(m.stack[1]) && Samples(m.stack, RIGHT) == RightPoint()
  {
    hide LayerManager.Valid, Samples, RightPoint, Footprint;
    IndexIs(m.stack, 1);
  }

  lemma RightIs(m: LayerManager)
    requires m.Composed() && m.Drawable() && m.screen.OnScreen(RIGHT)
    ensures m.back.Picture()(RIGHT) == Paint(Samples(m.stack, RIGHT), BLACK) == m.screen.Picture()(RIGHT)
  {
    hide Samples, Paint, Footprint, RightPoint;
    assert m.Right(m.back.Picture(), m.screen.Picture(), RIGHT);
  }

  lemma AfterDrawing(m: LayerManager, buffer: Image, shot: Image)
    requires m.Drawable() && |m.stack| == 3 && Samples(m.stack, RIGHT) == RightPoint() && m.screen.OnScreen(RIGHT)
    requires buffer(RIGHT) == RED && shot(RIGHT) == RED && m.ExactlyRestored(buffer, shot, 1, LEFT_AREA)
    ensures !m.Right(m.back.Picture(), m.screen.Picture(), RIGHT) && !m.Composed()
  {
    RightPointIs();
    hide Samples, Paint, Footprint, Layered, RightPoint, Restored, LayerManager.Right;
  }

  /** The composition is on the screen. The middle layer's left point is drawn again, and the right point, outside the area,
      is black. */
  method DrawLeftPoint(m: LayerManager)
    requires ThreeLayers(m) && m.Composed()
    modifies m.back.memory, m.screen.memory
    ensures m.Drawable() && m.screen.OnScreen(RIGHT)
    ensures !m.Right(m.back.Picture(), m.screen.Picture(), RIGHT) && !m.Composed()
  {
    hide ThreeLayers, LayerManager.Valid, LayerManager.Composed, Samples, Footprint, Layered, Layer.Part, RightPoint, IndexOf,
         LayerManager.ExactlyRestored, LayerManager.Redrawn, LayerManager.Right, LayerManager.WellLayered, LayerManager.RightBelow,
         LayerManager.ComposedBut, m.back.Picture;
    BeforeDrawing(m);
    ghost var buffer, shot := m.back.Picture(), m.screen.Picture();
    m.DrawPart(m.stack[1].id, LEFT_AREA);
    AfterDrawing(m, buffer, shot);
  }

  // ----- such a stack of windows -----

  /** A window of two points, at the screen's origin. */
  ghost predicate Small(l: Layer)
    reads l
  {
    l.window.Valid() && l.window.width == 2 && l.window.height == 1 && l.pos == Vector(0, 0)
  }

  /** What it shows at a point. */
  lemma SmallShows(l: Layer, p: Vector)
    requires Small(l) && 0 <= p.x < 2 && p.y == 0
    ensures l.window.shadow.OnScreen(p)
    ensures l.window.transparent.None? ==> l.SampleAt(p) == Sample(false, Some(l.window.shadow.At(p)))
    ensures l.window.transparent.Some? && l.window.At(p) != l.window.transparent.value ==>
              l.SampleAt(p) == Sample(true, Some(l.window.At(p)))
  {
    FromOrigin(p, l.pos);
    hide Minus, l.window.shadow.At;
  }

  lemma FromOrigin(p: Vector, origin: Vector)
    requires origin == Vector(0, 0)
    ensures Minus(p, origin) == p
  {
  }

  /** A window whose right point has a color. */
  method NewWindow(format: PixelFormat, c: Color) returns (w: Window)
    ensures w.Valid() && fresh(w) && fresh(w.data) && fresh(w.shadow) && fresh(w.shadow.memory) && w.shadow.format == format
    ensures w.width == 2 && w.height == 1 && w.transparent.None? && w.shadow.OnScreen(RIGHT)
    ensures w.At(RIGHT) == c && w.shadow.At(RIGHT) == c
  {
    w := new Window(2, 1, format);
    w.Write(RIGHT, c);
  }

  /** Three layers of a manager from the bottom. */
  ghost predicate Stacked(m: LayerManager, a: Layer, b: Layer, c: Layer)
    reads m, a, b, c, a.window, b.window, c.window, a.window.shadow.memory, b.window.data, c.window.shadow.memory
  {
    && m.Valid() && m.screen.width == 2 && m.screen.height == 1 && m.stack == [a, b, c] && Small(a) && Small(b) && Small(c)
    && a.window.transparent.None? && b.window.transparent == Some(WHITE) && c.window.transparent.None?
    && a.window.shadow.OnScreen(RIGHT) && b.window.shadow.OnScreen(RIGHT) && c.window.shadow.OnScreen(RIGHT)
    && a.window.shadow.At(RIGHT) == BLACK && b.window.At(RIGHT) == BLACK && c.window.shadow.At(RIGHT) == RED
  }

  lemma StackedThree(m: LayerManager, a: Layer, b: Layer, c: Layer)
    requires Stacked(m, a, b, c)
    ensures m.Valid() && m.Drawable() && Samples(m.stack, RIGHT) == RightPoint()
    ensures (forall l <- m.stack :: Small(l)) && DistinctIds(m.stack)
  {
    m.ValidParts();
    SmallShows(a, RIGHT);
    SmallShows(b, RIGHT);
    SmallShows(c, RIGHT);
    hide LayerManager.Valid, AllApart, Layer.SampleAt, Small, Footprint;
    var s := Samples(m.stack, RIGHT);
    assert s[0] == a.SampleAt(RIGHT) && s[1] == b.SampleAt(RIGHT) && s[2] == c.SampleAt(RIGHT);
  }

  /** The bottom window covers the screen. */
  ghost predicate Covered(m: LayerManager)
    requires WindowsValid(m.stack)
    reads m, Footprint(m.stack)
  {
    forall p :: m.screen.OnScreen(p) ==> ShownFrom(Samples(m.stack, p), 0)
  }

  lemma BottomShows(m: LayerManager, a: Layer, b: Layer, c: Layer)
    requires Stacked(m, a, b, c)
    ensures m.Drawable() && Covered(m)
  {
    m.ValidParts();
    forall p | m.screen.OnScreen(p)
      ensures ShownFrom(Samples(m.stack, p), 0)
    {
      SmallShows(a, p);
      hide LayerManager.Valid, AllApart, Layer.SampleAt, Small, Footprint;
      assert Samples(m.stack, p)[0] == a.SampleAt(p);
    }
  }

  /** Everything was drawn, so the composition is there. */
  lemma AllDrawn(m: LayerManager, buffer: Image, shot: Image)
    requires m.Drawable() && m.ExactlyRestored(buffer, shot, 0, m.screen.Outline())
    requires Covered(m)
    ensures m.Composed()
  {
    hide Samples, Footprint, ShownFrom, LayerManager.Right, Paint;
    forall p | m.screen.OnScreen(p)
      ensures m.Right(m.back.Picture(), m.screen.Picture(), p)
    {
      assert In(m.screen.Outline(), p);
    }
  }

  /** The three layers of the windows, put on each other. */
  method StackUp(m: LayerManager, bottom: Window, middle: Window, top: Window) returns (a: Layer, b: Layer, c: Layer)
    requires m.Valid() && m.layers == [] && m.stack == []
    requires forall w <- {bottom, middle, top} ::
               && w.Valid() && w.shadow.format == m.screen.format && w.shadow.memory != m.screen.memory
               && w.shadow.memory != m.back.memory
    requires bottom != middle && bottom != top && middle != top
    requires bottom.data != middle.data && bottom.data != top.data && middle.data != top.data
    requires bottom.shadow.memory != middle.shadow.memory && bottom.shadow.memory != top.shadow.memory
    requires middle.shadow.memory != top.shadow.memory
    modifies m
    ensures m.Valid() && m.stack == [a, b, c] && a.window == bottom && b.window == middle && c.window == top
    ensures fresh(a) && fresh(b) && fresh(c)
    ensures a.pos == Vector(0, 0) && b.pos == Vector(0, 0) && c.pos == Vector(0, 0)
  {
    hide LayerManager.Valid, LayerManager.ValidWith, PutAt, Without, IndexOf, LayerManager.Reordered, Footprint;
    a := m.NewLayer(bottom);
    b := m.NewLayer(middle);
    c := m.NewLayer(top);
    OnTop([], a);
    OnTop([a], b);
    OnTop([a, b], c);
    assert a in m.layers && b in m.layers && c in m.layers;
    m.UpDown(a.id, 0);
    assert m.stack == [a];
    m.UpDown(b.id, 1);
    assert m.stack == [a, b];
    m.UpDown(c.id, 2);
  }

  /** A layer that is not in a stack is put on it. */
  lemma OnTop(stack: seq<Layer>, l: Layer)
    requires forall k :: k in stack ==> k.id != l.id
    ensures PutAt(Without(stack, l.id), |stack|, l) == stack + [l]
  {
    NotThere(stack, l.id);
  }

  /** Two points of a screen, and three windows over both. */
  method ThreeWindows() returns (m: LayerManager)
    ensures ThreeLayers(m) && m.Composed() && fresh(m.back.memory) && fresh(m.screen.memory)
  {
    var screen := new FrameBuffer(RGB, 2, 1);
    m := new LayerManager(screen);
    var bottom := NewWindow(RGB, BLACK);
    var middle := NewWindow(RGB, BLACK);
    var top := NewWindow(RGB, RED);
    middle.SetTransparentColor(Some(WHITE));
    hide LayerManager.Valid, Window.At, FrameBuffer.At;
    var a, b, c := StackUp(m, bottom, middle, top);
    assert Stacked(m, a, b, c);
    StackedIs(m, a, b, c);
    DrawAll(m);
  }

  lemma StackedIs(m: LayerManager, a: Layer, b: Layer, c: Layer)
    requires Stacked(m, a, b, c)
    ensures ThreeLayers(m) && Covered(m)
  {
    StackedThree(m, a, b, c);
    BottomShows(m, a, b, c);
  }

  method DrawAll(m: LayerManager)
    requires ThreeLayers(m) && Covered(m)
    modifies m.back.memory, m.screen.memory
    ensures ThreeLayers(m) && m.Composed()
  {
    hide *;
    ReadyToDraw(m);
    ghost var buffer, shot := m.back.Picture(), m.screen.Picture();
    m.Draw(m.screen.Outline());
    SmallKept(m);
    ThreeKept(m);
    AllDrawn(m, buffer, shot);
  }

  lemma ReadyToDraw(m: LayerManager)
    requires ThreeLayers(m)
    ensures m.Valid() && m.Drawable() && WindowsValid(m.stack) && Proper(m.screen.Outline()) && m.back.Valid() && m.screen.Valid()
  {
  }

  twostate lemma SmallKept(m: LayerManager)
    requires old(ThreeLayers(m)) && unchanged(m) && forall l <- m.stack :: unchanged(l)
    ensures WindowsValid(m.stack) && forall l <- m.stack :: Small(l)
  {
  }

  twostate lemma ThreeKept(m: LayerManager)
    requires old(ThreeLayers(m)) && m.Valid() && WindowsValid(m.stack) && old(WindowsValid(m.stack)) && m.SameSamples()
    requires old(Covered(m)) && m.Drawable() && forall l <- m.stack :: Small(l)
    ensures ThreeLayers(m) && Covered(m)
  {
    hide LayerManager.Valid, Samples, Footprint, Layered, RightPoint, Small;
  }

  /** A part of a layer with a transparent color is drawn again, and the screen, which was right, no longer is. */
  method ThroughBelowTop() returns (m: LayerManager)
    ensures m.Drawable() && m.screen.OnScreen(RIGHT)
    ensures !m.Right(m.back.Picture(), m.screen.Picture(), RIGHT) && !m.Composed()
  {
    hide *;
    m := ThreeWindows();
    DrawLeftPoint(m);
  }
}
