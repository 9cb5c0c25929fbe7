/** Which window is active: it is raised to just below the mouse cursor. */
module ActiveLayers {
  import opened Geometry
  import opened Windows
  import opened LayerStacks
  import opened Layers

  /** A message that a window has become active, or no longer is. */
  datatype WindowActive = WindowActive(layerId: nat, activate: bool)

  datatype CloseResult = Closed | NoSuchEntry

  class ActiveLayer {
    const manager: LayerManager
    var active: nat
    var mouse: nat

    constructor (manager: LayerManager)
      ensures this.manager == manager && active == 0 && mouse == 0
    {
      this.manager, active, mouse := manager, 0, 0;
    }

    method SetMouseLayer(mouse: nat)
      modifies this`mouse
      ensures this.mouse == mouse
    {
      this.mouse := mouse;
    }

    ghost predicate Shown(id: nat)
      reads manager`stack
    {
      manager.HeightOf(id) < |manager.stack|
    }

    /** The stack with a layer right below the mouse's. */
    ghost predicate Raised(before: seq<Layer>, id: nat)
      reads this`mouse, manager`stack, manager`layers
    {
      forall l :: l in manager.layers && l.id == id ==>
        manager.stack == PutAt(Without(before, id), IndexOf(Without(before, id), mouse), l)
    }

    /** The layers that change are opaque and over a bottom layer that covers the screen. */
    ghost predicate OpaqueAbove(id: nat)
      reads this, manager`stack, manager`layers, Footprint(manager.stack), set l | l in manager.layers :: l.window
    {
      && manager.WellLayered() && (active > 0 ==> manager.Opaque(active))
      && (id > 0 ==> manager.Opaque(id) && manager.BottomApart(id, mouse))
    }

    lemma FootprintApart()
      ensures forall o :: o in Footprint(manager.stack) ==> allocated(o) && o != this
    {
    }

    method Deactivate(off: seq<Stroke>) returns (messages: seq<WindowActive>)
      requires manager.Valid() && (active > 0 ==> Shown(active) && manager.Writable(active, off))
      modifies manager.Contents(), manager.back.memory, manager.screen.memory
      ensures manager.Valid() && manager.layers == old(manager.layers) && manager.stack == old(manager.stack)
      ensures active == old(active) && mouse == old(mouse)
      ensures forall x :: manager.Opaque(x) <==> old(manager.Opaque(x))
      ensures messages == if active > 0 then [WindowActive(active, false)] else []
      ensures old(manager.Composed() && manager.WellLayered() && (active > 0 ==> manager.Opaque(active))) ==>
                manager.Composed() && manager.WellLayered()
    {
      messages := [];
      if active > 0 {
        hide LayerManager.Valid, LayerManager.ComposedBut, LayerManager.Composed, LayerManager.WellLayered, LayerManager.Opaque,
          LayerManager.Writable, IndexOf, Footprint;
        manager.RepaintLayer(active, off);
        messages := [WindowActive(active, false)];
      }
    }

    /** The active window is redrawn as one that is not active, and the new one as active; strokes are what changes in
        their windows. The screen stays right. */
    method Activate(layerId: nat, off: seq<Stroke>, on: seq<Stroke>) returns (messages: seq<WindowActive>)
      requires manager.Valid()
      requires layerId != active && active > 0 ==> Shown(active) && manager.Writable(active, off)
      requires layerId != active && layerId > 0 ==>
                 && (exists l :: l in manager.layers && l.id == layerId) && manager.Writable(layerId, on)
                 && layerId != mouse && Shown(mouse)
      modifies this`active, manager`stack, manager.Contents(), manager.back.memory, manager.screen.memory
      ensures manager.Valid() && manager.layers == old(manager.layers) && active == layerId
      ensures messages == (if layerId != old(active) && old(active) > 0 then [WindowActive(old(active), false)] else [])
                          + if layerId != old(active) && layerId > 0 then [WindowActive(layerId, true)] else []
      ensures if layerId != old(active) && layerId > 0 then Raised(old(manager.stack), layerId) && Shown(layerId)
              else manager.stack == old(manager.stack)
      ensures old(manager.Composed() && OpaqueAbove(layerId)) ==> manager.Composed() && manager.WellLayered()
    {
      hide LayerManager.Valid, LayerManager.ComposedBut, LayerManager.Composed, LayerManager.WellLayered, LayerManager.Opaque,
        LayerManager.Writable, LayerManager.BottomApart, LayerManager.Drawable, PutAt, Without, IndexOf, Footprint;
      messages := [];
      if active == layerId {
        return;
      }
      messages := Deactivate(off);
      FootprintApart();
      active := layerId;
      if active > 0 {
        manager.RaiseLayer(active, mouse, on);
        messages := messages + [WindowActive(active, true)];
      }
    }

    /** A layer is taken away and what it covered is drawn again. */
    method CloseLayer(id: nat, off: seq<Stroke>) returns (res: CloseResult, messages: seq<WindowActive>)
      requires manager.Valid() && (active > 0 ==> Shown(active) && manager.Writable(active, off))
      modifies this`active, manager`stack, manager`layers, manager.Contents(), manager.back.memory, manager.screen.memory
      ensures manager.Valid()
      ensures res == Closed <==> exists l :: l in old(manager.layers) && l.id == id
      ensures res == NoSuchEntry ==> manager.stack == old(manager.stack) && manager.layers == old(manager.layers) && active == old(active)
      ensures res == Closed ==> active == 0 && manager.stack == Without(old(manager.stack), id)
                                && manager.layers == FilterOut(old(manager.layers), id)
      ensures old(manager.Composed() && OpaqueAbove(0)) && manager.WellLayered() ==> manager.Composed()
    {
      hide LayerManager.Valid, LayerManager.Composed, LayerManager.WellLayered, Shown, LayerManager.Writable,
        Without, FilterOut, Footprint;
      messages := [];
      var l := manager.FindLayer(id);
      if l == null {
        return NoSuchEntry, [];
      }
      res := Closed;
      var area := l.Area();
      messages := Activate(0, off, []);
      RemoveAndDraw(l, id, area);
    }

    lemma RemovalReady(l: Layer)
      requires manager.Valid() && l in manager.layers
      ensures DistinctIds(manager.stack) && WindowsValid(manager.stack) && l.window.Valid()
      ensures forall m :: m in manager.stack && m.id == l.id ==> m == l
      ensures forall o :: o in Footprint(manager.stack) ==> allocated(o) && o != manager
      ensures manager.Composed() ==> manager.RightOf(manager.stack, manager.back.Picture(), manager.screen.Picture(), l.Area())
    {
      manager.ValidParts();
      manager.FootprintAllocated();
    }

    method RemoveAndDraw(l: Layer, id: nat, area: Rectangle)
      requires manager.Valid() && l in manager.layers && l.id == id && area == l.Area()
      modifies manager`stack, manager`layers, manager.back.memory, manager.screen.memory
      ensures manager.Valid() && manager.stack == Without(old(manager.stack), id)
      ensures manager.layers == FilterOut(old(manager.layers), id)
      ensures old(manager.Composed()) && manager.WellLayered() ==> manager.Composed()
    {
      hide LayerManager.ValidWith, LayerManager.ComposedBut, LayerManager.Composed, LayerManager.WellLayered,
        LayerManager.RightOf, Without, IndexOf, Footprint, FilterOut, LayerManager.Redrawn;
      ghost var before := manager.stack;
      RemovalReady(l);
      manager.RemoveLayer(id);
      if old(manager.Composed()) {
        manager.RemovedBut(before, l);
      }
      manager.Draw(area);
    }
  }
}
