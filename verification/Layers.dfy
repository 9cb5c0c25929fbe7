/** The layer manager: it redraws as little as it can, first to a back buffer and from there to the screen. */
module Layers {
  import opened Geometry
  import opened Compositing
  import opened FrameBuffers
  import opened Windows
  import opened LayerStacks

  datatype LayerOperation = MoveTo | MoveBy | DrawWindow | DrawArea

  const BLACK: Color := Color(0, 0, 0)

  class LayerManager {
    const screen: FrameBuffer
    const back: FrameBuffer
    var layers: seq<Layer>
    var stack: seq<Layer>
    var latestId: nat

    ghost predicate Buffers() {
      && screen.Valid() && back.Valid() && screen.memory != back.memory
      && screen.width == back.width && screen.height == back.height && screen.format == back.format
    }

    ghost predicate Fits(l: Layer) {
      l.window.shadow.format == screen.format && l.window.shadow.memory != screen.memory && l.window.shadow.memory != back.memory
    }

    ghost predicate Valid()
      reads this
    {
      ValidWith(stack)
    }

    ghost predicate ValidWith(st: seq<Layer>)
      reads this`layers, this`latestId
    {
      && Buffers() && WindowsValid(layers) && AllApart(layers) && DistinctIds(layers) && DistinctIds(st)
      && (forall l :: l in layers ==> Fits(l) && l.id <= latestId)
      && (forall l :: l in st ==> l in layers)
    }

    /** The buffers are no part of the windows. */
    ghost predicate Drawable()
      reads this`stack
    {
      && Buffers() && WindowsValid(stack) && (forall l :: l in stack ==> Fits(l))
      && back.memory !in Footprint(stack) && screen.memory !in Footprint(stack)
    }

    lemma ValidParts()
      requires Valid()
      ensures Drawable() && AllApart(stack) && DistinctIds(stack)
      ensures forall i, j :: 0 <= i < |stack| && 0 <= j < |stack| && i != j ==> stack[i] != stack[j]
    {
    }

    lemma ValidNow()
      requires Valid()
      ensures ValidWith(stack) && DistinctIds(stack)
    {
    }

    // ----- what there is to be seen -----

    /** A buffer's and a screen's picture are the composition at p. */
    ghost predicate Right(buffer: Image, shot: Image, p: Vector)
      requires WindowsValid(stack)
      reads this`stack, Footprint(stack)
    {
      buffer(p) == Paint(Samples(stack, p), BLACK) && shot(p) == buffer(p)
    }

    ghost predicate RightBut(buffer: Image, shot: Image, area: Rectangle)
      requires WindowsValid(stack)
      reads this`stack, Footprint(stack)
    {
      forall p {:trigger screen.OnScreen(p)} :: screen.OnScreen(p) && !In(area, p) ==> Right(buffer, shot, p)
    }

    /** Points that are right, or in an area and repainted by layer k. */
    ghost predicate RightBelow(buffer: Image, shot: Image, k: nat, area: Rectangle)
      requires WindowsValid(stack) && k < |stack|
      reads this`stack, Footprint(stack)
    {
      forall p {:trigger screen.OnScreen(p)} :: screen.OnScreen(p) ==>
        Right(buffer, shot, p) || (In(area, p) && Samples(stack, p)[k].shown.Some?)
    }

    /** The back buffer and the screen show the composition, except perhaps in an area. */
    ghost predicate ComposedBut(area: Rectangle)
      reads this`stack, back.memory, screen.memory, Footprint(stack)
    {
      Drawable() && RightBut(back.Picture(), screen.Picture(), area)
    }

    ghost predicate Composed()
      reads this`stack, back.memory, screen.memory, Footprint(stack)
    {
      Drawable() && forall p {:trigger screen.OnScreen(p)} :: screen.OnScreen(p) ==> Right(back.Picture(), screen.Picture(), p)
    }

    ghost predicate WellLayered()
      reads this`stack, Footprint(stack)
    {
      Drawable() && Layered(stack, screen.Outline())
    }

    constructor (screen: FrameBuffer)
      requires screen.Valid()
      ensures Valid() && this.screen == screen && layers == [] && stack == [] && fresh(back.memory)
    {
      this.screen := screen;
      layers, stack, latestId := [], [], 0;
      back := new FrameBuffer(screen.format, screen.width, screen.height);
    }

    // ----- drawing -----

    /** Layers from lo to i have been drawn over a picture. */
    ghost predicate Drawing(was: Image, lo: nat, i: nat, area: Rectangle)
      requires Drawable() && lo <= i <= |stack|
      reads this`stack, back.memory, Footprint(stack)
    {
      forall p {:trigger screen.OnScreen(p)} :: screen.OnScreen(p) ==>
        back.Picture()(p) == Drawn(Samples(stack, p)[lo..i], In(area, p), was(p))
    }

    method DrawNext(i: nat, area: Rectangle, ghost was: Image, ghost lo: nat)
      requires Drawable() && lo <= i < |stack| && Proper(area) && Drawing(was, lo, i, area)
      modifies back.memory
      ensures Drawing(was, lo, i + 1, area) && SameSamples()
    {
      back.PictureIs();
      hide back.At, back.Picture, Drawn;
      stack[i].DrawTo(back, area);
      back.PictureIs();
      SamplesKept(stack);
      forall p | screen.OnScreen(p)
        ensures back.Picture()(p) == Drawn(Samples(stack, p)[lo..i + 1], In(area, p), was(p))
      {
        assert back.OnScreen(p) && back.At(p) == back.Picture()(p);
        DrawnNext(Samples(stack, p), lo, i, In(area, p), was(p));
      }
    }

    twostate predicate SameSamples()
      requires WindowsValid(stack) && old(WindowsValid(stack))
      reads this`stack, Footprint(stack)
    {
      && stack == old(stack)
      && (forall p {:trigger Samples(stack, p)} :: Samples(stack, p) == old(Samples(stack, p)))
      && (Layered(stack, screen.Outline()) <==> old(Layered(stack, screen.Outline())))
    }

    method CopyToScreen(area: Rectangle)
      requires Drawable() && Proper(area)
      modifies screen.memory
      ensures SameSamples() && back.Picture() == old(back.Picture())
      ensures forall p {:trigger screen.OnScreen(p)} :: screen.OnScreen(p) ==>
                screen.Picture()(p) == if In(area, p) then back.Picture()(p) else old(screen.Picture())(p)
    {
      screen.PictureIs();
      back.PictureIs();
      hide screen.At, screen.Picture;
      var _ := screen.Copy(area.pos, back, area);
      screen.PictureIs();
      SamplesKept(stack);
      BackAndForth(area.pos);
      assert forall p {:trigger screen.OnScreen(p)} :: screen.OnScreen(p) ==> screen.At(p) == screen.Picture()(p);
    }

    lemma NothingDrawn(lo: nat, area: Rectangle)
      requires Drawable() && lo <= |stack|
      ensures Drawing(back.Picture(), lo, lo, area)
    {
      hide Samples, Drawn;
      forall p | screen.OnScreen(p)
        ensures back.Picture()(p) == Drawn(Samples(stack, p)[lo..lo], In(area, p), back.Picture()(p))
      {
        DrawnNone(Samples(stack, p), lo, In(area, p), back.Picture()(p));
      }
    }

    /** What drawing the layers from k on in an area does to the pictures of buffer and screen. */
    ghost predicate Redrawn(buffer: Image, shot: Image, k: nat, area: Rectangle)
      requires Drawable() && k <= |stack|
      reads this`stack, back.memory, screen.memory, Footprint(stack)
    {
      Drawing(buffer, k, |stack|, area)
      && forall p {:trigger screen.OnScreen(p)} :: screen.OnScreen(p) ==>
           screen.Picture()(p) == if In(area, p) then back.Picture()(p) else shot(p)
    }

    method Show(ghost was: Image, ghost lo: nat, area: Rectangle)
      requires Drawable() && Proper(area) && lo <= |stack| && Drawing(was, lo, |stack|, area)
      modifies screen.memory
      ensures SameSamples() && Redrawn(was, old(screen.Picture()), lo, area)
    {
      hide Samples, back.Picture, Drawn, Footprint;
      CopyToScreen(area);
    }

    /** All layers are drawn, from the bottom, and the area is shown. */
    method DrawStack(area: Rectangle)
      requires Drawable() && Proper(area)
      modifies back.memory, screen.memory
      ensures SameSamples() && Redrawn(old(back.Picture()), old(screen.Picture()), 0, area)
    {
      hide Drawing, Samples, back.Picture, Footprint;
      ghost var was := back.Picture();
      NothingDrawn(0, area);
      for i := 0 to |stack|
        modifies back.memory
        invariant SameSamples() && Drawing(was, 0, i, area)
      {
        DrawNext(i, area, was, 0);
      }
      Show(was, 0, area);
    }

    /** The layer that is asked for and those above it are drawn in the part of its window that is asked for, which is
        then shown. */
    method DrawUpwards(id: nat, area: Rectangle, ghost k: nat)
      requires Drawable() && k < |stack| && forall i :: 0 <= i < |stack| ==> (stack[i].id == id <==> i == k)
      requires Proper(stack[k].Part(area))
      modifies back.memory, screen.memory
      ensures SameSamples() && Redrawn(old(back.Picture()), old(screen.Picture()), k, stack[k].Part(area))
    {
      hide Drawing, Samples, back.Picture, Footprint, Meet;
      ghost var was, part := back.Picture(), stack[k].Part(area);
      NothingDrawn(k, part);
      var draw := false;
      var windowArea := Rectangle(Vector(0, 0), Vector(0, 0));
      for i := 0 to |stack|
        modifies back.memory
        invariant draw <==> k < i
        invariant draw ==> windowArea == part
        invariant SameSamples() && Drawing(was, k, if i < k then k else i, part)
      {
        if stack[i].id == id {
          windowArea := stack[i].Part(area);
          draw := true;
        }
        if draw {
          DrawNext(i, windowArea, was, k);
        }
      }
      Show(was, k, windowArea);
    }

    // ----- what drawing restores -----

    lemma RightRestored(buffer: Image, shot: Image, k: nat, area: Rectangle)
      requires Drawable() && k < |stack| && WellLayered() && Redrawn(buffer, shot, k, area) && RightBelow(buffer, shot, k, area)
      ensures Composed()
    {
      hide back.Picture, Footprint, Samples, Drawn, Layered, OnlyTopThrough, Paint;
      forall p | screen.OnScreen(p)
        ensures Right(back.Picture(), screen.Picture(), p)
      {
        LayeredSamples(stack, screen.Outline(), p);
        RestoredPoint(Samples(stack, p), k, In(area, p), buffer(p), shot(p), BLACK);
      }
    }

    lemma BottomRepaints(buffer: Image, shot: Image, area: Rectangle)
      requires Drawable() && WellLayered() && RightBut(buffer, shot, area)
      ensures stack != [] && RightBelow(buffer, shot, 0, area)
    {
      assert stack != [];
      hide Footprint, Samples, Layered, Right;
      forall p | screen.OnScreen(p)
        ensures stack != [] && Samples(stack, p)[0].shown.Some?
      {
        LayeredSamples(stack, screen.Outline(), p);
      }
    }

    /** Draw(area): the composition is restored after a change in the area. */
    method Draw(area: Rectangle)
      requires Valid() && Proper(area)
      modifies back.memory, screen.memory
      ensures SameSamples() && Redrawn(old(back.Picture()), old(screen.Picture()), 0, area)
      ensures ExactlyRestored(old(back.Picture()), old(screen.Picture()), 0, area)
      ensures old(WellLayered() && ComposedBut(area)) ==> Composed()
      ensures WellLayered() <==> old(WellLayered())
    {
      ValidParts();
      hide Valid, Footprint, Samples, Layered, Redrawn, Composed, RightBut, RightBelow, ExactlyRestored, back.Picture;
      DrawStack(area);
      RedrawnExact(old(back.Picture()), old(screen.Picture()), 0, area);
      if old(WellLayered() && ComposedBut(area)) {
        BottomRepaints(old(back.Picture()), old(screen.Picture()), area);
        RightRestored(old(back.Picture()), old(screen.Picture()), 0, area);
      }
    }

    /** Exactly the points where drawing layer k and those above restores the composition have it. */
    ghost predicate ExactlyRestored(buffer: Image, shot: Image, k: nat, area: Rectangle)
      requires Drawable() && k <= |stack|
      reads this`stack, back.memory, screen.memory, Footprint(stack)
    {
      forall p {:trigger screen.OnScreen(p)} :: screen.OnScreen(p) ==>
        (Right(back.Picture(), screen.Picture(), p) <==>
         Restored(Samples(stack, p), k, In(area, p), buffer(p), shot(p), BLACK))
    }

    lemma RedrawnExact(buffer: Image, shot: Image, k: nat, area: Rectangle)
      requires Drawable() && k <= |stack| && Redrawn(buffer, shot, k, area)
      ensures ExactlyRestored(buffer, shot, k, area)
    {
      hide back.Picture, Footprint, Samples, Drawn, Paint, Restored;
      forall p | screen.OnScreen(p)
        ensures Right(back.Picture(), screen.Picture(), p) <==>
                Restored(Samples(stack, p), k, In(area, p), buffer(p), shot(p), BLACK)
      {
        RestoredExactly(Samples(stack, p), k, In(area, p), buffer(p), shot(p), BLACK);
      }
    }

    ghost function HeightOf(id: nat): (k: nat)
      reads this`stack
    {
      IndexOf(stack, id)
    }

    lemma OpaqueRepaints(buffer: Image, shot: Image, k: nat, area: Rectangle)
      requires Drawable() && k < |stack| && stack[k].window.transparent.None? && RightBut(buffer, shot, stack[k].Part(area))
      requires Proper(area) || (area.size.x < 0 && area.size.y < 0)
      ensures RightBelow(buffer, shot, k, stack[k].Part(area))
    {
      if Proper(area) {
        MeetIs(stack[k].Area(), Rectangle(Plus(area.pos, stack[k].pos), area.size));
      }
      hide Meet;
      forall p | In(stack[k].Part(area), p)
        ensures Samples(stack, p)[k].shown.Some?
      {
        assert stack[k].window.Valid() && In(stack[k].Area(), p);
      }
    }

    /** Draw(id, area): the composition is restored if it was there, but for points that the layer repaints. */
    method DrawPart(id: nat, area: Rectangle)
      requires Valid() && HeightOf(id) < |stack| && (Proper(area) || (area.size.x < 0 && area.size.y < 0))
      modifies back.memory, screen.memory
      ensures SameSamples()
      ensures Redrawn(old(back.Picture()), old(screen.Picture()), HeightOf(id), stack[HeightOf(id)].Part(area))
      ensures ExactlyRestored(old(back.Picture()), old(screen.Picture()), HeightOf(id), stack[HeightOf(id)].Part(area))
      ensures old(WellLayered() && RightBelow(back.Picture(), screen.Picture(), HeightOf(id), stack[HeightOf(id)].Part(area)))
              ==> Composed()
      ensures old(WellLayered() && ComposedBut(stack[HeightOf(id)].Part(area)) && stack[HeightOf(id)].window.transparent.None?)
              ==> Composed()
      ensures forall p :: In(stack[HeightOf(id)].Part(area), p) <==> stack[HeightOf(id)].InWindow(area, p)
      ensures old(WellLayered() && ComposedButIn(stack[HeightOf(id)], area) && stack[HeightOf(id)].window.transparent.None?)
              ==> Composed()
    {
      hide Valid, Footprint, Samples, Layered, Redrawn, Composed, RightBut, RightBelow, ExactlyRestored, back.Picture, Meet;
      ghost var k := IndexOf(stack, id);
      FootprintAllocated();
      ValidParts();
      PartProper(k, area);
      ButIn(stack[k], area);
      if ComposedBut(stack[k].Part(area)) && stack[k].window.transparent.None? {
        OpaqueRepaints(back.Picture(), screen.Picture(), k, area);
      }
      DrawUpwards(id, area, k);
      RedrawnExact(old(back.Picture()), old(screen.Picture()), k, stack[k].Part(area));
      if old(WellLayered() && RightBelow(back.Picture(), screen.Picture(), HeightOf(id), stack[HeightOf(id)].Part(area))) {
        RightRestored(old(back.Picture()), old(screen.Picture()), k, stack[k].Part(area));
      }
    }

    /** The composition is there, except perhaps at points of a layer's window in an area given in the window's coordinates. */
    ghost predicate ComposedButIn(l: Layer, area: Rectangle)
      reads this`stack, l, back.memory, screen.memory, Footprint(stack)
    {
      Drawable() && forall p {:trigger screen.OnScreen(p)} :: screen.OnScreen(p) && !l.InWindow(area, p) ==>
        Right(back.Picture(), screen.Picture(), p)
    }

    lemma ButIn(l: Layer, area: Rectangle)
      requires Proper(area) || (area.size.x < 0 && area.size.y < 0)
      ensures forall p :: In(l.Part(area), p) <==> l.InWindow(area, p)
      ensures ComposedBut(l.Part(area)) <==> ComposedButIn(l, area)
    {
      hide back.Picture, Footprint, Samples, Right, Layer.Part, Layer.InWindow;
      l.PartIs(area);
    }

    lemma PartProper(k: nat, area: Rectangle)
      requires k < |stack| && (Proper(area) || (area.size.x < 0 && area.size.y < 0)) && DistinctIds(stack)
      ensures Proper(stack[k].Part(area))
      ensures forall i :: 0 <= i < |stack| ==> (stack[i].id == stack[k].id <==> i == k)
    {
      if Proper(area) {
        MeetIs(stack[k].Area(), Rectangle(Plus(area.pos, stack[k].pos), area.size));
      }
    }

    /** Draw(id): after the whole window of an opaque layer is drawn, the composition is there if it was outside. */
    method DrawLayer(id: nat)
      requires Valid() && HeightOf(id) < |stack|
      modifies back.memory, screen.memory
      ensures SameSamples()
      ensures Redrawn(old(back.Picture()), old(screen.Picture()), HeightOf(id), stack[HeightOf(id)].Area())
      ensures ExactlyRestored(old(back.Picture()), old(screen.Picture()), HeightOf(id), stack[HeightOf(id)].Area())
      ensures old(WellLayered() && RightBelow(back.Picture(), screen.Picture(), HeightOf(id), stack[HeightOf(id)].Area()))
              ==> Composed()
      ensures old(WellLayered() && ComposedBut(stack[HeightOf(id)].Area()) && stack[HeightOf(id)].window.transparent.None?)
              ==> Composed()
    {
      ValidParts();
      hide Valid, Footprint, Samples, Layered, Redrawn, Composed, RightBut, RightBelow, ExactlyRestored, back.Picture, Meet;
      DrawPart(id, Rectangle(Vector(0, 0), Vector(-1, -1)));
    }

    // ----- moving layers -----

    method FindLayer(id: nat) returns (l: Layer?)
      ensures l == null <==> forall m :: m in layers ==> m.id != id
      ensures l != null ==> l in layers && l.id == id
      ensures Composed() == old(Composed()) && WellLayered() == old(WellLayered())
    {
      for i := 0 to |layers|
        invariant forall j :: 0 <= j < i ==> layers[j].id != id
      {
        if layers[i].id == id {
          return layers[i];
        }
      }
      l := null;
    }

    lemma SameLayer(l: Layer, m: Layer)
      requires Valid() && l in layers && m in layers && l.id == m.id
      ensures l == m
    {
    }

    /** Only layer k looks different, and only in the areas where it was and where it is. */
    twostate predicate OnlyChanged(k: nat, was: Rectangle, now: Rectangle)
      requires WindowsValid(stack) && old(WindowsValid(stack)) && k < |stack|
      reads this`stack, Footprint(stack)
    {
      stack == old(stack)
      && forall p {:trigger Samples(stack, p)} :: Differs(old(Samples(stack, p)), Samples(stack, p), k, In(was, p), In(now, p))
    }

    method SetPosition(l: Layer, newPos: Vector, ghost k: nat)
      requires Valid() && k < |stack| && l == stack[k]
      modifies l
      ensures Valid() && l.pos == newPos && l.draggable == old(l.draggable)
      ensures OnlyChanged(k, old(stack[k].Area()), stack[k].Area())
      ensures old(Composed()) ==> WasRight(back.Picture(), screen.Picture(), k, old(stack[k].Area()), stack[k].Area())
    {
      ValidParts();
      stack[k].ShownInside();
      hide Samples, Layer.SampleAt, Footprint, Differs, DistinctIds;
      l.pos := newPos;
      stack[k].ShownInside();
      forall p
        ensures Differs(old(Samples(stack, p)), Samples(stack, p), k, In(old(stack[k].Area()), p), In(stack[k].Area(), p))
      {
        DiffersIf(old(Samples(stack, p)), Samples(stack, p), k, In(old(stack[k].Area()), p), In(stack[k].Area(), p));
      }
      hide back.Picture, Paint;
    }

    /** The pictures were right before only layer k changed. */
    ghost predicate WasRight(buffer: Image, shot: Image, k: nat, was: Rectangle, now: Rectangle)
      requires WindowsValid(stack) && k < |stack|
      reads this`stack, Footprint(stack)
    {
      forall p {:trigger screen.OnScreen(p)} :: screen.OnScreen(p) ==> WasRightAt(buffer(p), shot(p), Samples(stack, p), k, In(was, p), In(now, p))
    }

    /** Layers drawn in one area, then layer k and those above it in another. */
    ghost predicate RedrawnTwice(buffer: Image, shot: Image, k: nat, was: Rectangle, now: Rectangle)
      requires Drawable() && k <= |stack|
      reads this`stack, back.memory, screen.memory, Footprint(stack)
    {
      forall p {:trigger screen.OnScreen(p)} :: screen.OnScreen(p) ==>
        var s := Samples(stack, p);
        var d := Drawn(s[0..|s|], In(was, p), buffer(p));
        var e := Drawn(s[k..|s|], In(now, p), d);
        && back.Picture()(p) == e
        && screen.Picture()(p) == if In(now, p) then e else if In(was, p) then d else shot(p)
    }

    lemma MovedComposed(buffer: Image, shot: Image, k: nat, was: Rectangle, now: Rectangle)
      requires Drawable() && k < |stack| && WellLayered()
      requires WasRight(buffer, shot, k, was, now) && RedrawnTwice(buffer, shot, k, was, now)
      ensures Composed()
    {
      hide back.Picture, Footprint, Samples, Drawn, Layered, OnlyTopThrough, Paint, Differs;
      forall p | screen.OnScreen(p)
        ensures Right(back.Picture(), screen.Picture(), p)
      {
        LayeredSamples(stack, screen.Outline(), p);
        var s := Samples(stack, p);
        var before :| Differs(before, s, k, In(was, p), In(now, p)) && buffer(p) == Paint(before, BLACK) && shot(p) == buffer(p);
        MovedPoint(before, s, k, In(was, p), In(now, p), BLACK);
      }
    }

    method DrawTwice(id: nat, area: Rectangle)
      requires Valid() && HeightOf(id) < |stack| && Proper(area)
      modifies back.memory, screen.memory
      ensures RedrawnTwice(old(back.Picture()), old(screen.Picture()), HeightOf(id), area, stack[HeightOf(id)].Area())
      ensures SameSamples()
    {
      hide Valid, Footprint, Samples, Layered, Composed, ComposedBut, RightBut, RightBelow, ExactlyRestored, back.Picture, Meet, Drawn, IndexOf;
      ValidParts();
      Draw(area);
      DrawLayer(id);
    }

    ghost function LayerOf(id: nat): Layer
      requires HeightOf(id) < |stack|
      reads this`stack
    {
      stack[HeightOf(id)]
    }

    lemma FootprintAllocated()
      ensures forall o :: o in Footprint(stack) ==> allocated(o) && o != this
    {
    }

    lemma LayerOfIs(id: nat)
      requires Valid() && HeightOf(id) < |stack|
      ensures LayerOf(id) == stack[HeightOf(id)] && LayerOf(id).id == id && LayerOf(id) in layers
    {
    }

    method MoveLayer(l: Layer, newPos: Vector, ghost k: nat)
      requires Valid() && k < |stack| && l == stack[k]
      modifies l, back.memory, screen.memory
      ensures Valid() && l.pos == newPos && l.draggable == old(l.draggable)
      ensures old(Composed()) && WellLayered() ==> Composed()
    {
      hide Valid, Footprint, Samples, Layered, Composed, RedrawnTwice, WasRight, back.Picture;
      ValidParts();
      ghost var b, s := back.Picture(), screen.Picture();
      IndexIs(stack, k);
      FootprintAllocated();
      var oldArea := l.Area();
      SetPosition(l, newPos, k);
      DrawTwice(l.id, oldArea);
      if old(Composed()) && WellLayered() {
        MovedComposed(b, s, k, oldArea, l.Area());
      }
    }

    /** The layer is moved and redrawn where it was and where it is, after which all of the screen is right. */
    method Move(id: nat, newPos: Vector)
      requires Valid() && HeightOf(id) < |stack|
      modifies LayerOf(id), back.memory, screen.memory
      ensures Valid() && LayerOf(id).pos == newPos && LayerOf(id).draggable == old(LayerOf(id).draggable)
      ensures old(Composed()) && WellLayered() ==> Composed()
    {
      hide *;
      ValidParts();
      LayerOfIs(id);
      var l := FindLayer(id);
      SameLayer(l, LayerOf(id));
      MoveLayer(l, newPos, HeightOf(id));
      ValidParts();
      LayerOfIs(id);
    }

    method MoveRelative(id: nat, posDiff: Vector)
      requires Valid() && HeightOf(id) < |stack|
      modifies LayerOf(id), back.memory, screen.memory
      ensures Valid() && LayerOf(id).pos == Plus(old(LayerOf(id).pos), posDiff)
      ensures LayerOf(id).draggable == old(LayerOf(id).draggable)
      ensures old(Composed()) && WellLayered() ==> Composed()
    {
      hide *;
      ValidParts();
      LayerOfIs(id);
      var l := FindLayer(id);
      SameLayer(l, LayerOf(id));
      MoveLayer(l, Plus(l.pos, posDiff), HeightOf(id));
      ValidParts();
      LayerOfIs(id);
    }

    // ----- the order of layers -----

    method NewLayer(window: Window) returns (l: Layer)
      requires Valid() && window.Valid() && window.shadow.format == screen.format
      requires window.shadow.memory != screen.memory && window.shadow.memory != back.memory
      requires forall m :: m in layers ==>
                 m.window != window && m.window.data != window.data && m.window.shadow.memory != window.shadow.memory
      modifies this`layers, this`latestId
      ensures Valid() && fresh(l) && l.window == window && l.id == old(latestId) + 1 && l.pos == Vector(0, 0)
      ensures layers == old(layers) + [l] && latestId == l.id && l.id !in (set m | m in old(layers) :: m.id)
    {
      latestId := latestId + 1;
      l := new Layer(latestId, window);
      layers := layers + [l];
    }

    method GetHeight(id: nat) returns (h: int)
      ensures h == if IndexOf(stack, id) < |stack| then IndexOf(stack, id) else -1
    {
      for i := 0 to |stack|
        invariant forall j :: 0 <= j < i ==> stack[j].id != id
      {
        if stack[i].id == id {
          return i;
        }
      }
      h := -1;
    }

    method FindInStack(l: Layer?) returns (pos: nat)
      ensures pos <= |stack| && (pos < |stack| ==> stack[pos] == l) && forall j :: 0 <= j < pos ==> stack[j] != l
    {
      pos := 0;
      while pos < |stack| && stack[pos] != l
        invariant pos <= |stack| && forall j :: 0 <= j < pos ==> stack[j] != l
      {
        pos := pos + 1;
      }
    }

    lemma FoundIs(l: Layer?, id: nat, pos: nat)
      requires Valid() && pos <= |stack| && (pos < |stack| ==> stack[pos] == l) && forall j :: 0 <= j < pos ==> stack[j] != l
      requires l == null <==> forall m :: m in layers ==> m.id != id
      requires l != null ==> l in layers && l.id == id
      ensures pos == IndexOf(stack, id)
    {
      forall j | 0 <= j < pos
        ensures stack[j].id != id
      {
        assert stack[j] in layers;
      }
    }

    /** Only this layer may have another height, or none. */
    ghost predicate Reordered(before: seq<Layer>, id: nat)
      reads this
    {
      Without(stack, id) == Without(before, id) && DistinctIds(before) && forall l :: l in before ==> l in layers
    }

    method Hide(id: nat)
      requires Valid()
      modifies this`stack
      ensures Valid() && stack == Without(old(stack), id) && Reordered(old(stack), id)
    {
      hide *;
      ghost var before := stack;
      var l := FindLayer(id);
      var pos := FindInStack(l);
      FoundIs(l, id, pos);
      ValidNow();
      TakenOut(stack, id);
      if pos != |stack| {
        stack := stack[..pos] + stack[pos + 1..];
      }
      StillValid(before, id);
    }

    lemma StillValid(before: seq<Layer>, id: nat)
      requires ValidWith(before) && stack == Without(before, id) == Without(stack, id)
      ensures Valid() && Reordered(before, id)
    {
      hide Buffers, WindowsValid, AllApart, DistinctIds, Fits, Without;
      WithoutIs(before, id);
    }

    /** The layer, found at oldPos or nowhere, is put at a height. */
    method Place(l: Layer, oldPos: nat, height: nat)
      requires oldPos <= |stack| && height <= |stack|
      modifies this`stack
      ensures stack == PutAt(if oldPos < |old(stack)| then Removed(old(stack), oldPos) else old(stack), height, l)
    {
      if oldPos == |stack| {
        stack := stack[..height] + [l] + stack[height..];
        return;
      }
      var newPos := height;
      if newPos == |stack| {
        newPos := newPos - 1;
      }
      stack := stack[..oldPos] + stack[oldPos + 1..];
      stack := stack[..newPos] + [l] + stack[newPos..];
    }

    lemma PlacedIs(before: seq<Layer>, l: Layer, height: nat, newHeight: nat)
      requires ValidWith(before) && l in layers && height == Min(newHeight, |before|)
      ensures var s := PutAt(Without(before, l.id), newHeight, l);
              && s == PutAt(Without(before, l.id), height, l) && ValidWith(s) && Without(s, l.id) == Without(before, l.id)
    {
      hide AllApart, WindowsValid, Buffers, Fits, DistinctIds, PutAt, Without, Min;
      PutBack(before, l, newHeight);
    }

    lemma WithoutCases(before: seq<Layer>, id: nat)
      ensures Without(before, id) == if IndexOf(before, id) < |before| then Removed(before, IndexOf(before, id)) else before
    {
    }

    lemma OnlyLayer(l: Layer)
      requires Valid() && l in layers
      ensures forall m :: m in layers && m.id == l.id ==> m == l
    {
    }

    lemma ReorderedIf(before: seq<Layer>, id: nat)
      requires ValidWith(before) && Without(stack, id) == Without(before, id)
      ensures Reordered(before, id)
    {
    }

    /** The layer goes to a height among the others, to the top if there are not so many, and with a negative height out of
        sight. */
    method UpDown(id: nat, newHeight: int)
      requires Valid() && (newHeight < 0 || exists l :: l in layers && l.id == id)
      modifies this`stack
      ensures Valid() && Reordered(old(stack), id)
      ensures newHeight < 0 ==> stack == Without(old(stack), id)
      ensures newHeight >= 0 ==>
                forall l :: l in layers && l.id == id ==> stack == PutAt(Without(old(stack), id), newHeight, l)
    {
      hide ValidWith, PutAt, Without, Removed, IndexOf, Reordered;
      if newHeight < 0 {
        Hide(id);
        return;
      }
      var height := newHeight;
      if height > |stack| {
        height := |stack|;
      }
      var l := FindLayer(id);
      var oldPos := FindInStack(l);
      FoundIs(l, id, oldPos);
      PlacedIs(stack, l, height, newHeight);
      WithoutCases(stack, id);
      OnlyLayer(l);
      Place(l, oldPos, height);
      ReorderedIf(old(stack), id);
    }

    /** A stack as it was: the pictures were right outside an area. */
    ghost predicate RightOf(st: seq<Layer>, buffer: Image, shot: Image, area: Rectangle)
      requires WindowsValid(st)
      reads Footprint(st)
    {
      forall p {:trigger screen.OnScreen(p)} :: screen.OnScreen(p) && !In(area, p) ==>
        buffer(p) == Paint(Samples(st, p), BLACK) && shot(p) == buffer(p)
    }

    /** After a layer has changed its height, only its window needs to be redrawn. */
    lemma ReorderedRight(before: seq<Layer>, l: Layer, buffer: Image, shot: Image)
      requires Valid() && l in layers && Reordered(before, l.id) && WindowsValid(before)
      requires RightOf(before, buffer, shot, l.Area())
      ensures RightBut(buffer, shot, l.Area())
    {
      ValidParts();
      assert forall m :: (m in before || m in stack) && m.id == l.id ==> m == l;
      hide Valid, Samples, Paint, Footprint, IndexOf, DistinctIds;
      forall p | screen.OnScreen(p) && !In(l.Area(), p)
        ensures Right(buffer, shot, p)
      {
        PaintElsewhere(before, stack, l, p, BLACK);
      }
    }

    lemma OthersApart(l: Layer)
      requires Valid() && l in layers
      ensures forall m {:trigger m in stack} :: m in stack && m != l ==> Apart(m, l)
    {
    }

    method WriteStrokes(l: Layer, strokes: seq<Stroke>)
      requires Valid() && l in layers && forall i :: 0 <= i < |strokes| ==> l.window.shadow.OnScreen(strokes[i].pos)
      modifies l.window.data, l.window.shadow.memory
      ensures back.Picture() == old(back.Picture()) && screen.Picture() == old(screen.Picture())
      ensures forall p {:trigger Samples(stack, p)} :: !In(l.Area(), p) ==> Samples(stack, p) == old(Samples(stack, p))
    {
      ValidParts();
      l.ShownInside();
      FootprintAllocated();
      OthersApart(l);
      hide Valid, Samples, Layer.SampleAt, Footprint, Paint, back.Picture;
      l.window.WriteAll(strokes);
      l.ShownInside();
      forall p | !In(l.Area(), p)
        ensures Samples(stack, p) == old(Samples(stack, p))
      {
        forall i | 0 <= i < |stack|
          ensures Samples(stack, p)[i] == old(Samples(stack, p))[i]
        {
          assert stack[i] in stack;
        }
      }
    }

    /** A window's content is changed by strokes; only its part of the screen is then to be redrawn. */
    method ChangeContent(l: Layer, strokes: seq<Stroke>)
      requires Valid() && l in layers && forall i :: 0 <= i < |strokes| ==> l.window.shadow.OnScreen(strokes[i].pos)
      modifies l.window.data, l.window.shadow.memory
      ensures Valid()
      ensures old(ComposedBut(l.Area())) ==> ComposedBut(l.Area())
      ensures WellLayered() <==> old(WellLayered())
    {
      ValidParts();
      hide ValidWith, Samples, Layer.SampleAt, Footprint, Paint, back.Picture;
      WriteStrokes(l, strokes);
    }

    lemma ComposedIsBut(area: Rectangle)
      requires Drawable() && Composed()
      ensures ComposedBut(area)
    {
    }

    // ----- one layer at a time -----

    ghost predicate Writable(id: nat, strokes: seq<Stroke>)
      reads this`layers
    {
      forall l, i :: l in layers && l.id == id && 0 <= i < |strokes| ==> l.window.shadow.OnScreen(strokes[i].pos)
    }

    lemma ShownLayer(l: Layer)
      requires Valid() && l in stack
      ensures HeightOf(l.id) < |stack| && stack[HeightOf(l.id)] == l && LayerOf(l.id) == l && l in layers
    {
      var k :| 0 <= k < |stack| && stack[k] == l;
      IndexIs(stack, k);
    }

    lemma PutThere(st: seq<Layer>, id: nat, height: nat, l: Layer)
      requires ValidWith(st) && l in layers && l.id == id
      ensures l in PutAt(Without(st, id), height, l)
    {
      WithoutIs(st, id);
      WithoutPut(Without(st, id), height, l);
    }

    /** The layer goes right below the mouse's, from wherever it is; the others keep their order. */
    method RaiseBelow(l: Layer, mouse: nat)
      requires Valid() && l in layers && l.id != mouse && HeightOf(mouse) < |stack|
      modifies this`stack
      ensures Valid() && l in stack && Reordered(old(stack), l.id)
      ensures stack == PutAt(Without(old(stack), l.id), IndexOf(Without(old(stack), l.id), mouse), l)
    {
      hide Valid, PutAt, Without, IndexOf, DistinctIds;
      ghost var w := Without(stack, l.id);
      ValidParts();
      StillThere(stack, l.id, mouse);
      AtBottom(w, l, mouse);
      WithoutIs(stack, l.id);
      WithoutPut(w, 0, l);
      UpDown(l.id, 0);
      assert stack == PutAt(w, 0, l);
      var h := GetHeight(mouse);
      assert h == 1 + IndexOf(w, mouse);
      UpDown(l.id, h - 1);
      WithoutPut(w, h - 1, l);
    }

    /** An opaque layer's window is changed and drawn. */
    method Repaint(l: Layer, strokes: seq<Stroke>)
      requires Valid() && l in stack && Writable(l.id, strokes)
      modifies l.window.data, l.window.shadow.memory, back.memory, screen.memory
      ensures Valid()
      ensures WellLayered() <==> old(WellLayered())
      ensures old(ComposedBut(l.Area())) && WellLayered() && l.window.transparent.None? ==> Composed()
    {
      ValidParts();
      ShownLayer(l);
      hide Valid, ComposedBut, Composed, Layered, Footprint, IndexOf, Samples;
      ChangeContent(l, strokes);
      DrawLayer(l.id);
    }

    lemma ReorderedBut(before: seq<Layer>, l: Layer)
      requires Valid() && l in layers && Reordered(before, l.id) && WindowsValid(before)
      requires RightOf(before, back.Picture(), screen.Picture(), l.Area())
      ensures Drawable() && ComposedBut(l.Area())
    {
      ValidParts();
      ReorderedRight(before, l, back.Picture(), screen.Picture());
    }

    lemma ButIsOf(area: Rectangle)
      requires Drawable()
      ensures ComposedBut(area) <==> RightOf(stack, back.Picture(), screen.Picture(), area)
    {
    }

    /** Neither layer is the bottom one. */
    ghost predicate BottomApart(id: nat, mouse: nat)
      reads this`stack
    {
      stack != [] && stack[0].id != id && stack[0].id != mouse
    }

    /** The layer is put below the mouse's and drawn with its new content. */
    method RepaintRaised(l: Layer, mouse: nat, strokes: seq<Stroke>)
      requires Valid() && l in layers && l.id != mouse && HeightOf(mouse) < |stack| && Writable(l.id, strokes)
      modifies this`stack, l.window.data, l.window.shadow.memory, back.memory, screen.memory
      ensures Valid() && l in stack
      ensures stack == PutAt(Without(old(stack), l.id), IndexOf(Without(old(stack), l.id), mouse), l)
      ensures old(ComposedBut(l.Area())) && WellLayered() && l.window.transparent.None? ==> Composed()
      ensures old(WellLayered() && BottomApart(l.id, mouse)) && l.window.transparent.None? ==> WellLayered()
    {
      hide Valid, ComposedBut, Composed, Layered, Footprint, IndexOf, Samples, PutAt, Without, Reordered, DistinctIds, RightOf;
      ValidParts();
      ChangeContent(l, strokes);
      ghost var before := stack;
      ButIsOf(l.Area());
      FootprintAllocated();
      RaiseBelow(l, mouse);
      ValidParts();
      ShownLayer(l);
      if old(ComposedBut(l.Area())) {
        ReorderedBut(before, l);
      }
      if old(WellLayered() && BottomApart(l.id, mouse)) && l.window.transparent.None? {
        RaisedLayered(before, l, mouse, screen.Outline());
      }
      DrawLayer(l.id);
    }

    // ----- layers by identifier -----

    ghost function Contents(): set<object>
      reads this`layers
    {
      (set l | l in layers :: l.window.data as object) + (set l | l in layers :: l.window.shadow.memory as object)
    }

    lemma InContents(l: Layer)
      requires l in layers
      ensures l.window.data in Contents() && l.window.shadow.memory in Contents()
    {
    }

    ghost predicate Opaque(id: nat)
      reads this`layers, set l | l in layers :: l.window
    {
      forall l :: l in layers && l.id == id ==> l.window.transparent.None?
    }

    lemma OpaqueIs(l: Layer)
      requires Opaque(l.id) && l in layers
      ensures l.window.transparent.None?
    {
    }

    method RepaintLayer(id: nat, strokes: seq<Stroke>)
      requires Valid() && HeightOf(id) < |stack| && Writable(id, strokes)
      modifies Contents(), back.memory, screen.memory
      ensures Valid() && layers == old(layers) && stack == old(stack)
      ensures forall x :: Opaque(x) <==> old(Opaque(x))
      ensures WellLayered() <==> old(WellLayered())
      ensures old(Composed() && Opaque(id)) && WellLayered() ==> Composed()
    {
      hide *;
      ValidParts();
      LayerOfIs(id);
      var l := FindLayer(id);
      SameLayer(l, LayerOf(id));
      ShownThere(id);
      InContents(l);
      if Composed() && Opaque(id) {
        ComposedIsBut(l.Area());
        OpaqueIs(l);
      }
      Repaint(l, strokes);
    }

    lemma ById(id: nat, l: Layer)
      requires Valid() && l in layers && l.id == id
      ensures forall m :: m in layers && m.id == id ==> m == l
    {
    }

    /** The layer goes right below the mouse's and is drawn with its new content. */
    method RaiseLayer(id: nat, mouse: nat, strokes: seq<Stroke>)
      requires Valid() && (exists l :: l in layers && l.id == id) && id != mouse && HeightOf(mouse) < |stack| && Writable(id, strokes)
      modifies this`stack, Contents(), back.memory, screen.memory
      ensures Valid() && HeightOf(id) < |stack| && layers == old(layers)
      ensures forall l :: l in layers && l.id == id ==>
                stack == PutAt(Without(old(stack), id), IndexOf(Without(old(stack), id), mouse), l)
      ensures old(Composed() && Opaque(id)) && WellLayered() ==> Composed()
      ensures old(WellLayered() && Opaque(id) && BottomApart(id, mouse)) ==> WellLayered()
    {
      hide *;
      ValidParts();
      var l := FindLayer(id);
      ById(id, l);
      InContents(l);
      if Composed() {
        ComposedIsBut(l.Area());
      }
      if Opaque(id) {
        OpaqueIs(l);
      }
      RepaintRaised(l, mouse, strokes);
      ShownLayer(l);
    }

    lemma ShownThere(id: nat)
      requires Valid() && HeightOf(id) < |stack|
      ensures LayerOf(id) in stack
    {
    }

    // ----- taking a layer away -----

    method EraseLayer(id: nat)
      modifies this`layers
      ensures layers == FilterOut(old(layers), id)
    {
      var kept: seq<Layer> := [];
      assert layers[..0] == [];
      for i := 0 to |layers|
        invariant kept == FilterOut(layers[..i], id)
      {
        assert layers[..i + 1][..i] == layers[..i];
        if layers[i].id != id {
          kept := kept + [layers[i]];
        }
      }
      assert layers[..|layers|] == layers;
      layers := kept;
    }

    lemma ErasedValid(before: seq<Layer>, id: nat, st: seq<Layer>)
      requires Buffers() && WindowsValid(before) && AllApart(before) && DistinctIds(before)
      requires forall l :: l in before ==> Fits(l) && l.id <= latestId
      requires DistinctIds(st) && (forall l :: l in st ==> l in before && l.id != id) && layers == FilterOut(before, id)
      ensures ValidWith(st)
    {
      FilteredIs(before, id);
      hide FilterOut, DistinctIds, Fits;
    }

    /** The layer is hidden and forgotten. */
    method RemoveLayer(id: nat)
      requires Valid()
      modifies this`layers, this`stack
      ensures Valid() && stack == Without(old(stack), id) && layers == FilterOut(old(layers), id)
    {
      ghost var before := layers;
      WithoutIs(stack, id);
      hide Without, DistinctIds, Fits, AllApart, FilterOut;
      Hide(id);
      EraseLayer(id);
      ErasedValid(before, id, stack);
    }

    /** What RemoveLayer leaves to be redrawn. */
    lemma RemovedBut(before: seq<Layer>, l: Layer)
      requires Valid() && DistinctIds(before) && WindowsValid(before) && l.window.Valid() && stack == Without(before, l.id)
      requires (forall m :: m in before && m.id == l.id ==> m == l)
      requires RightOf(before, back.Picture(), screen.Picture(), l.Area())
      ensures ComposedBut(l.Area())
    {
      ValidParts();
      WithoutIs(before, l.id);
      NotThere(stack, l.id);
      WithoutCases(stack, l.id);
      hide Valid, Samples, Paint, Footprint, IndexOf, DistinctIds, Without;
      forall p | screen.OnScreen(p) && !In(l.Area(), p)
        ensures Right(back.Picture(), screen.Picture(), p)
      {
        PaintElsewhere(before, stack, l, p, BLACK);
      }
    }

    /** The topmost layer with a window at a point, or none. */
    method FindLayerByPosition(pos: Vector, exclude: nat) returns (l: Layer?)
      ensures l != null ==> exists k: nat :: TopmostHit(stack, k, pos, exclude) && stack[k] == l
      ensures l == null ==> forall k :: 0 <= k < |stack| ==> stack[k] in stack && !Hit(stack[k], pos, exclude)
    {
      var i: nat := |stack|;
      while i > 0
        invariant 0 <= i <= |stack| && forall j :: i <= j < |stack| ==> stack[j] in stack && !Hit(stack[j], pos, exclude)
      {
        i := i - 1;
        var winPos, winEnd := stack[i].pos, Plus(stack[i].pos, Vector(stack[i].window.width, stack[i].window.height));
        if stack[i].id != exclude && winPos.x <= pos.x < winEnd.x && winPos.y <= pos.y < winEnd.y {
          assert TopmostHit(stack, i, pos, exclude);
          return stack[i];
        }
      }
      l := null;
    }

    /** Layer messages: two that move the layer and keep the screen right, two that show what has changed in its window. */
    method ProcessLayerMessage(op: LayerOperation, id: nat, arg: Rectangle)
      requires Valid() && HeightOf(id) < |stack|
      requires op == DrawArea ==> Proper(arg) || (arg.size.x < 0 && arg.size.y < 0)
      modifies LayerOf(id), back.memory, screen.memory
      ensures Valid()
      ensures LayerOf(id).pos == (if op == MoveTo then arg.pos else if op == MoveBy then Plus(old(LayerOf(id).pos), arg.pos)
                                  else old(LayerOf(id).pos))
      ensures old(Composed()) && WellLayered() && (op == MoveTo || op == MoveBy) ==> Composed()
      ensures old(WellLayered() && Opaque(id) && ComposedBut(LayerOf(id).Area())) && op == DrawWindow ==> Composed()
      ensures old(WellLayered() && Opaque(id) && ComposedButIn(LayerOf(id), arg)) && op == DrawArea ==> Composed()
    {
      LayerOfIs(id);
      if Opaque(id) {
        OpaqueIs(LayerOf(id));
      }
      hide Valid, Composed, ComposedBut, ComposedButIn, WellLayered, Opaque, IndexOf, Footprint;
      match op
      case MoveTo => Move(id, arg.pos);
      case MoveBy => MoveRelative(id, arg.pos);
      case DrawWindow => DrawLayer(id);
      case DrawArea => DrawPart(id, arg);
    }
  }

  ghost predicate WasRightAt(buffer: Color, shot: Color, now: seq<Sample>, k: nat, inOld: bool, inNew: bool) {
    exists before :: Differs(before, now, k, inOld, inNew) && buffer == Paint(before, BLACK) && shot == buffer
  }
}
