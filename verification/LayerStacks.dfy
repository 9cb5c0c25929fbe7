/** Layers in front of each other, as seen at a point of the screen. */
module LayerStacks {
  import opened Geometry
  import opened Compositing
  import opened FrameBuffers
  import opened Windows

  class Layer {
    const id: nat
    const window: Window
    var pos: Vector
    var draggable: bool

    constructor (id: nat, window: Window)
      ensures this.id == id && this.window == window && pos == Vector(0, 0) && !draggable
    {
      this.id, this.window, pos, draggable := id, window, Vector(0, 0), false;
    }

    function Area(): Rectangle
      reads this
    {
      Rectangle(pos, Vector(window.width, window.height))
    }

    /** The part of the window to be drawn: an area given in its own coordinates, or all if both sizes are negative. */
    function Part(area: Rectangle): Rectangle
      reads this
    {
      if area.size.x >= 0 || area.size.y >= 0 then Meet(Area(), Rectangle(Plus(area.pos, pos), area.size)) else Area()
    }

    /** A point of the screen that lies in the window, and there in an area given in the window's coordinates. */
    ghost predicate InWindow(area: Rectangle, p: Vector)
      reads this
    {
      var x, y := p.x - pos.x, p.y - pos.y;
      && 0 <= x < window.width && 0 <= y < window.height
      && (Proper(area) ==> area.pos.x <= x < area.pos.x + area.size.x && area.pos.y <= y < area.pos.y + area.size.y)
    }

    lemma PartIs(area: Rectangle)
      requires Proper(area) || (area.size.x < 0 && area.size.y < 0)
      ensures Proper(Part(area)) && forall p :: In(Part(area), p) <==> InWindow(area, p)
    {
      if Proper(area) {
        MeetIs(Area(), Rectangle(Plus(area.pos, pos), area.size));
      }
      hide Meet;
    }

    ghost function SampleAt(p: Vector): Sample
      requires window.Valid()
      reads this, window, window.data, window.shadow.memory
    {
      window.SampleAt(pos, p)
    }

    lemma ShownInside()
      requires window.Valid()
      ensures forall p {:trigger SampleAt(p)} :: SampleAt(p).shown.Some? ==> In(Area(), p)
      ensures forall p {:trigger SampleAt(p)} :: !In(Area(), p) ==> SampleAt(p) == Sample(window.transparent.Some?, None)
    {
    }

    method DrawTo(dst: FrameBuffer, area: Rectangle)
      requires window.Valid() && dst.Valid() && dst.memory != window.shadow.memory && dst.format == window.shadow.format
      requires Proper(area)
      modifies dst.memory
      ensures forall p {:trigger dst.At(p)} :: dst.OnScreen(p) ==>
                dst.At(p) == Over(SampleAt(p), In(area, p), old(dst.At(p)))
    {
      window.DrawTo(dst, pos, area);
    }
  }

  /** Everything that what layers show depends on. */
  ghost function Footprint(layers: seq<Layer>): set<object> {
    (set l | l in layers :: l as object) + (set l | l in layers :: l.window as object)
    + (set l | l in layers :: l.window.data as object) + (set l | l in layers :: l.window.shadow.memory as object)
  }

  ghost predicate WindowsValid(layers: seq<Layer>) {
    forall l :: l in layers ==> l.window.Valid()
  }

  ghost function Samples(stack: seq<Layer>, p: Vector): (r: seq<Sample>)
    requires WindowsValid(stack)
    reads Footprint(stack)
    ensures |r| == |stack| && forall i :: 0 <= i < |stack| ==> r[i] == stack[i].SampleAt(p)
    decreases |stack|
  {
    if stack == [] then []
    else
      var n := |stack| - 1;
      assert stack[n] in stack && Footprint(stack[..n]) <= Footprint(stack);
      Samples(stack[..n], p) + [stack[n].SampleAt(p)]
  }

  twostate lemma SamplesKept(stack: seq<Layer>)
    requires WindowsValid(stack) && forall o :: o in Footprint(stack) ==> unchanged(o)
    ensures forall p {:trigger Samples(stack, p)} :: Samples(stack, p) == old(Samples(stack, p))
    ensures forall r {:trigger Layered(stack, r)} :: Layered(stack, r) == old(Layered(stack, r))
  {
  }

  /** The position of the layer with an identifier, or the number of layers. */
  function IndexOf(stack: seq<Layer>, id: nat): (k: nat)
    ensures k <= |stack| && (k < |stack| ==> stack[k].id == id)
    ensures forall i :: 0 <= i < k ==> stack[i].id != id
  {
    if stack == [] then 0
    else if stack[0].id == id then 0
    else 1 + IndexOf(stack[1..], id)
  }

  ghost predicate DistinctIds(layers: seq<Layer>) {
    forall i, j :: 0 <= i < j < |layers| ==> layers[i].id != layers[j].id
  }

  lemma IndexIs(stack: seq<Layer>, k: nat)
    requires DistinctIds(stack) && k < |stack|
    ensures IndexOf(stack, stack[k].id) == k
  {
  }

  /** Layers share no window and no memory. */
  ghost predicate Apart(a: Layer, b: Layer) {
    && a.id != b.id && a.window != b.window && a.window.data != b.window.data
    && a.window.shadow.memory != b.window.shadow.memory
  }

  ghost predicate AllApart(layers: seq<Layer>) {
    forall a, b :: a in layers && b in layers && a != b ==> Apart(a, b)
  }

  /** A bottom layer that covers the screen and hides what is below it, and transparency only in the topmost layer. */
  ghost predicate Layered(stack: seq<Layer>, outline: Rectangle)
    reads Footprint(stack)
  {
    && stack != [] && stack[0] in stack && stack[0].window.transparent.None?
    && (forall p :: In(outline, p) ==> In(stack[0].Area(), p))
    && (forall i :: 0 <= i < |stack| - 1 ==> stack[i] in stack && stack[i].window.transparent.None?)
  }

  lemma LayeredSamples(stack: seq<Layer>, outline: Rectangle, p: Vector)
    requires WindowsValid(stack) && Layered(stack, outline) && In(outline, p)
    ensures var s := Samples(stack, p);
            s != [] && s[0].shown.Some? && OnlyTopThrough(s)
  {
    assert stack[0].window.Valid();
    assert In(stack[0].Area(), p);
  }

  // ----- taking layers out of a stack and putting them in -----

  /** A layer taken out of a stack, if it is there. */
  ghost function Without(stack: seq<Layer>, id: nat): seq<Layer> {
    var k := IndexOf(stack, id);
    if k < |stack| then Removed(stack, k) else stack
  }

  /** A layer put at a height of a stack that did not have it, at the top if there are not so many. */
  ghost function PutAt(stack: seq<Layer>, height: nat, l: Layer): seq<Layer> {
    Inserted(stack, Min(height, |stack|), l)
  }

  lemma {:induction false} NotThere(stack: seq<Layer>, id: nat)
    ensures IndexOf(stack, id) == |stack| <==> forall l :: l in stack ==> l.id != id
  {
    if stack != [] {
      NotThere(stack[1..], id);
    }
  }

  /** Without is the stack without the layer, whatever the order it was in; the others keep theirs. */
  lemma WithoutIs(stack: seq<Layer>, id: nat)
    requires DistinctIds(stack)
    ensures DistinctIds(Without(stack, id))
    ensures forall l {:trigger l in Without(stack, id)} :: l in Without(stack, id) ==> l in stack && l.id != id
    ensures forall l {:trigger l in stack} :: l in stack && l.id != id ==> l in Without(stack, id)
  {
    var k := IndexOf(stack, id);
    if k < |stack| {
      forall l | l in stack && l.id != id
        ensures l in Removed(stack, k)
      {
        var i :| 0 <= i < |stack| && stack[i] == l;
        assert Removed(stack, k)[if i < k then i else i - 1] == l;
      }
    } else {
      NotThere(stack, id);
    }
  }

  lemma PutDistinct(stack: seq<Layer>, h: nat, l: Layer)
    requires DistinctIds(stack) && h <= |stack| && forall m :: m in stack ==> m.id != l.id
    ensures DistinctIds(Inserted(stack, h, l))
  {
    var s := Inserted(stack, h, l);
    forall i, j | 0 <= i < j < |s|
      ensures s[i].id != s[j].id
    {
      assert i != h ==> s[i] == stack[if i < h then i else i - 1];
      assert j != h ==> s[j] == stack[if j < h then j else j - 1];
    }
  }

  lemma InsertedElements<T>(s: seq<T>, h: nat, x: T)
    requires h <= |s|
    ensures Inserted(s, h, x)[h] == x && forall m :: m in Inserted(s, h, x) <==> m in s || m == x
  {
    forall m | m in s
      ensures m in Inserted(s, h, x)
    {
      var i :| 0 <= i < |s| && s[i] == m;
      assert Inserted(s, h, x)[if i < h then i else i + 1] == m;
    }
  }

  lemma WithoutPut(stack: seq<Layer>, height: nat, l: Layer)
    requires DistinctIds(stack) && forall m :: m in stack ==> m.id != l.id
    ensures DistinctIds(PutAt(stack, height, l)) && Without(PutAt(stack, height, l), l.id) == stack
    ensures l in PutAt(stack, height, l)
    ensures forall m {:trigger m in PutAt(stack, height, l)} :: m in PutAt(stack, height, l) ==> m in stack || m == l
    ensures forall m {:trigger m in stack} :: m in stack ==> m in PutAt(stack, height, l)
    ensures IndexOf(PutAt(stack, height, l), l.id) == Min(height, |stack|)
  {
    hide DistinctIds, IndexOf;
    var h := Min(height, |stack|);
    PutDistinct(stack, h, l);
    InsertedElements(stack, h, l);
    IndexIs(PutAt(stack, height, l), h);
    RemovedInserted(stack, h, l);
  }

  lemma SamePlace(stack: seq<Layer>, bound: nat, height: nat, l: Layer)
    requires |stack| <= bound
    ensures PutAt(stack, Min(height, bound), l) == PutAt(stack, height, l)
  {
  }

  lemma WithoutShorter(stack: seq<Layer>, id: nat)
    ensures |Without(stack, id)| <= |stack|
  {
  }

  /** What is put at a height that the stack limits is put among the others all the same. */
  lemma PutBack(before: seq<Layer>, l: Layer, newHeight: nat)
    requires DistinctIds(before)
    ensures var s := PutAt(Without(before, l.id), newHeight, l);
            && s == PutAt(Without(before, l.id), Min(newHeight, |before|), l) && DistinctIds(s)
            && Without(s, l.id) == Without(before, l.id) && forall m {:trigger m in s} :: m in s ==> m in before || m == l
  {
    hide *;
    WithoutIs(before, l.id);
    WithoutPut(Without(before, l.id), newHeight, l);
    WithoutShorter(before, l.id);
    SamePlace(Without(before, l.id), |before|, newHeight, l);
  }

  /** A layer put at the bottom moves the others up by one. */
  lemma TakenOut(stack: seq<Layer>, id: nat)
    requires DistinctIds(stack)
    ensures var k := IndexOf(stack, id); Without(stack, id) == if k < |stack| then stack[..k] + stack[k + 1..] else stack
    ensures Without(Without(stack, id), id) == Without(stack, id)
  {
    WithoutIs(stack, id);
    NotThere(Without(stack, id), id);
  }

  lemma AtBottom(stack: seq<Layer>, l: Layer, id: nat)
    requires l.id != id
    ensures |PutAt(stack, 0, l)| == |stack| + 1 && IndexOf(PutAt(stack, 0, l), id) == 1 + IndexOf(stack, id)
  {
    assert PutAt(stack, 0, l) == [l] + stack && ([l] + stack)[1..] == stack;
  }

  lemma StillThere(stack: seq<Layer>, id: nat, other: nat)
    requires DistinctIds(stack) && id != other && IndexOf(stack, other) < |stack|
    ensures IndexOf(Without(stack, id), other) < |Without(stack, id)|
  {
    WithoutIs(stack, id);
    NotThere(stack, other);
    NotThere(Without(stack, id), other);
    var l := stack[IndexOf(stack, other)];
    assert l in stack && l in Without(stack, id);
  }

  /** A layer that shows nothing at a point may be taken out of the stack. */
  lemma PaintWithout(stack: seq<Layer>, id: nat, p: Vector, ground: Color)
    requires WindowsValid(stack) && DistinctIds(stack)
    requires forall l :: l in stack && l.id == id ==> l.SampleAt(p).shown.None?
    ensures WindowsValid(Without(stack, id))
    ensures Paint(Samples(Without(stack, id), p), ground) == Paint(Samples(stack, p), ground)
  {
    hide Samples, Paint, DistinctIds, Layer.SampleAt;
    var k := IndexOf(stack, id);
    if k < |stack| {
      assert stack[k] in stack;
      var r := Removed(stack, k);
      assert forall i :: 0 <= i < |r| ==> r[i] == stack[if i < k then i else i + 1];
      assert Samples(r, p) == Removed(Samples(stack, p), k);
      PaintRemoved(Samples(stack, p), k, ground);
    }
  }

  /** A layer may be moved in the stack, put in or taken out, and points outside its window look the same. */
  lemma PaintElsewhere(stack: seq<Layer>, stack': seq<Layer>, l: Layer, p: Vector, ground: Color)
    requires WindowsValid(stack) && WindowsValid(stack') && DistinctIds(stack) && DistinctIds(stack')
    requires Without(stack, l.id) == Without(stack', l.id) && l.window.Valid() && !In(l.Area(), p)
    requires forall m :: (m in stack || m in stack') && m.id == l.id ==> m == l
    ensures Paint(Samples(stack, p), ground) == Paint(Samples(stack', p), ground)
  {
    l.ShownInside();
    PaintWithout(stack, l.id, p, ground);
    PaintWithout(stack', l.id, p, ground);
  }

  /** A stack is still well layered after a layer without transparent color is put below another that is not at the bottom. */
  lemma RaisedLayered(stack: seq<Layer>, l: Layer, mouse: nat, outline: Rectangle)
    requires Layered(stack, outline) && DistinctIds(stack) && l.window.transparent.None?
    requires stack[0].id != l.id && stack[0].id != mouse && l.id != mouse && IndexOf(stack, mouse) < |stack|
    ensures Layered(PutAt(Without(stack, l.id), IndexOf(Without(stack, l.id), mouse), l), outline)
  {
    StillThere(stack, l.id, mouse);
    var w := Without(stack, l.id);
    var m := IndexOf(w, mouse);
    var r := PutAt(w, m, l);
    var k := IndexOf(stack, l.id);
    assert w[0] == stack[0] && 0 < m;
    assert r[0] == stack[0];
    forall i | 0 <= i < |r| - 1
      ensures r[i] in r && r[i].window.transparent.None?
    {
      if i != m {
        var j := if i < m then i else i - 1;
        assert r[i] == w[j] && w[j] == stack[if j < k then j else j + 1];
      }
    }
  }

  /** The layers without those of an identifier. */
  function FilterOut(layers: seq<Layer>, id: nat): seq<Layer> {
    if layers == [] then []
    else
      var n := |layers| - 1;
      FilterOut(layers[..n], id) + if layers[n].id == id then [] else [layers[n]]
  }

  lemma {:induction false} FilteredIs(layers: seq<Layer>, id: nat)
    requires DistinctIds(layers)
    ensures DistinctIds(FilterOut(layers, id))
    ensures forall l {:trigger l in FilterOut(layers, id)} :: l in FilterOut(layers, id) ==> l in layers && l.id != id
    ensures forall l {:trigger l in layers} :: l in layers && l.id != id ==> l in FilterOut(layers, id)
  {
    if layers != [] {
      var n := |layers| - 1;
      FilteredIs(layers[..n], id);
      var f := FilterOut(layers[..n], id);
      assert layers == layers[..n] + [layers[n]];
      forall i | 0 <= i < |f|
        ensures f[i].id != layers[n].id
      {
        assert f[i] in f && f[i] in layers[..n];
        var j :| 0 <= j < n && layers[..n][j] == f[i];
      }
    }
  }

  // ----- what is under a point -----

  ghost predicate Hit(l: Layer, p: Vector, exclude: nat)
    reads l
  {
    l.id != exclude && In(l.Area(), p)
  }

  ghost predicate TopmostHit(stack: seq<Layer>, k: nat, p: Vector, exclude: nat)
    reads Footprint(stack)
  {
    k < |stack| && stack[k] in stack && Hit(stack[k], p, exclude)
    && forall j :: k < j < |stack| ==> stack[j] in stack && !Hit(stack[j], p, exclude)
  }

  lemma {:induction false} PaintUpper(layers: seq<Sample>, k: nat, ground: Color)
    requires k < |layers| && layers[k].shown.Some? && forall j :: k < j < |layers| ==> layers[j].shown.None?
    ensures Paint(layers, ground) == layers[k].shown.value
    decreases |layers|
  {
    if k < |layers| - 1 {
      PaintUpper(layers[..|layers| - 1], k, ground);
    }
  }

  /** The topmost layer under a point, but for the excluded one, is the one that is seen there if that one were not. */
  lemma HitIsSeen(stack: seq<Layer>, k: nat, p: Vector, exclude: nat, ground: Color)
    requires WindowsValid(stack) && DistinctIds(stack) && TopmostHit(stack, k, p, exclude) && stack[k].window.transparent.None?
    ensures WindowsValid(Without(stack, exclude)) && stack[k].SampleAt(p).shown.Some?
    ensures Paint(Samples(Without(stack, exclude), p), ground) == stack[k].SampleAt(p).shown.value
  {
    hide Samples, IndexOf, DistinctIds, Without, Paint;
    var e, w := IndexOf(stack, exclude), Without(stack, exclude);
    WithoutIs(stack, exclude);
    WithoutAt(stack, exclude);
    var j := if e < k then k - 1 else k;
    assert w[j] == stack[k] && stack[k].window.Valid();
    forall i | j < i < |w|
      ensures Samples(w, p)[i].shown.None?
    {
      assert w[i] == stack[if i < e then i else i + 1];
      assert w[i] in w && !Hit(w[i], p, exclude);
      w[i].ShownInside();
    }
    PaintUpper(Samples(w, p), j, ground);
  }

  lemma WithoutAt(stack: seq<Layer>, id: nat)
    ensures var e, w := IndexOf(stack, id), Without(stack, id);
            && (e < |stack| ==> stack[e].id == id) && |w| == (if e < |stack| then |stack| - 1 else |stack|)
            && forall i :: 0 <= i < |w| ==> w[i] == stack[if i < e then i else i + 1]
  {
    hide IndexOf;
    if IndexOf(stack, id) < |stack| {
      RemovedAt(stack, IndexOf(stack, id));
    }
    hide Removed;
  }

  lemma RemovedAt(stack: seq<Layer>, k: nat)
    requires k < |stack|
    ensures |Removed(stack, k)| == |stack| - 1
    ensures forall i :: 0 <= i < |stack| - 1 ==> Removed(stack, k)[i] == stack[if i < k then i else i + 1]
  {
  }
}
