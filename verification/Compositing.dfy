/** What a stack of windows looks like at one point of the screen, and how redrawing parts of the stack restores it. */
module Compositing {
  import opened Geometry

  datatype Option<T> = None | Some(value: T)

  datatype Color = Color(r: bv8, g: bv8, b: bv8)

  /** A layer at one point: whether its window has a transparent color, and the color it shows there, if any. */
  datatype Sample = Sample(through: bool, shown: Option<Color>)

  /** The painter's composition: the color of the topmost layer that shows one, on a background. */
  function Paint(layers: seq<Sample>, ground: Color): Color {
    if layers == [] then ground
    else if layers[|layers| - 1].shown.Some? then layers[|layers| - 1].shown.value
    else Paint(layers[..|layers| - 1], ground)
  }

  /** A window drawn on a point of color c. Only a window without transparent color heeds the area to be drawn. */
  function Over(s: Sample, inArea: bool, c: Color): Color {
    if s.shown.Some? && (s.through || inArea) then s.shown.value else c
  }

  /** Windows drawn one on the other, from the bottom. */
  function Drawn(layers: seq<Sample>, inArea: bool, c: Color): Color {
    if layers == [] then c else Over(layers[|layers| - 1], inArea, Drawn(layers[..|layers| - 1], inArea, c))
  }

  lemma DrawnNone(layers: seq<Sample>, lo: nat, inArea: bool, c: Color)
    requires lo <= |layers|
    ensures Drawn(layers[lo..lo], inArea, c) == c
  {
    assert layers[lo..lo] == [];
  }

  lemma DrawnNext(layers: seq<Sample>, lo: nat, i: nat, inArea: bool, c: Color)
    requires lo <= i < |layers|
    ensures Drawn(layers[lo..i + 1], inArea, c) == Over(layers[i], inArea, Drawn(layers[lo..i], inArea, c))
  {
    assert layers[lo..i + 1][..i - lo] == layers[lo..i];
  }

  /** Transparency only in the topmost layer. */
  ghost predicate OnlyTopThrough(layers: seq<Sample>) {
    forall i :: 0 <= i < |layers| - 1 ==> !layers[i].through
  }

  /** Something is shown from layer k on. */
  ghost predicate ShownFrom(layers: seq<Sample>, k: nat) {
    exists i :: k <= i < |layers| && layers[i].shown.Some?
  }

  lemma {:induction false} DrawnInside(layers: seq<Sample>, c: Color)
    ensures Drawn(layers, true, c) == Paint(layers, c)
  {
    if layers != [] {
      DrawnInside(layers[..|layers| - 1], c);
    }
  }

  /** Outside the area only a transparent topmost layer is drawn. */
  lemma {:induction false} DrawnOutside(layers: seq<Sample>, c: Color)
    requires OnlyTopThrough(layers)
    ensures layers == [] ==> Drawn(layers, false, c) == c
    ensures layers != [] ==> Drawn(layers, false, c) == Over(layers[|layers| - 1], false, c)
  {
    if layers != [] {
      OpaqueOutside(layers[..|layers| - 1], c);
    }
  }

  lemma {:induction false} OpaqueOutside(layers: seq<Sample>, c: Color)
    requires forall i :: 0 <= i < |layers| ==> !layers[i].through
    ensures Drawn(layers, false, c) == c
  {
    if layers != [] {
      OpaqueOutside(layers[..|layers| - 1], c);
    }
  }

  lemma {:induction false} PaintSplit(layers: seq<Sample>, k: nat, ground: Color)
    requires k <= |layers|
    ensures Paint(layers, ground) == Paint(layers[k..], Paint(layers[..k], ground))
    decreases |layers|
  {
    if k == |layers| {
      assert layers[..k] == layers;
    } else {
      var n := |layers|;
      PaintSplit(layers[..n - 1], k, ground);
      assert layers[..n - 1][k..] == layers[k..][..n - 1 - k] && layers[..n - 1][..k] == layers[..k];
    }
  }

  /** Where layers show nothing, the background is seen; where one does, it does not matter. */
  lemma {:induction false} PaintGround(layers: seq<Sample>, a: Color, b: Color)
    ensures !ShownFrom(layers, 0) ==> Paint(layers, a) == a
    ensures ShownFrom(layers, 0) ==> Paint(layers, a) == Paint(layers, b)
  {
    if layers != [] {
      var n := |layers|;
      PaintGround(layers[..n - 1], a, b);
      if layers[n - 1].shown.None? && ShownFrom(layers, 0) {
        var i :| 0 <= i < |layers| && layers[i].shown.Some?;
        assert layers[..n - 1][i].shown.Some?;
      }
    }
  }

  lemma ShownSuffix(layers: seq<Sample>, k: nat)
    requires k <= |layers|
    ensures ShownFrom(layers[k..], 0) <==> ShownFrom(layers, k)
  {
    if ShownFrom(layers, k) {
      var i :| k <= i < |layers| && layers[i].shown.Some?;
      assert layers[k..][i - k].shown.Some?;
    }
    if ShownFrom(layers[k..], 0) {
      var i :| 0 <= i < |layers| - k && layers[k..][i].shown.Some?;
      assert layers[k + i].shown.Some?;
    }
  }

  // ----- redrawing -----

  /** Drawing all layers puts a point of the area right, whatever was there if the bottom layer covers it. */
  lemma AreaInside(layers: seq<Sample>, c: Color, ground: Color)
    requires layers != [] && layers[0].shown.Some?
    ensures Drawn(layers, true, c) == Paint(layers, ground)
  {
    DrawnInside(layers, c);
    assert ShownFrom(layers, 0);
    PaintGround(layers, c, ground);
  }

  /** Drawing layer k and those above puts a point of the area right exactly if one of them shows something there or it
      showed what is below them. */
  lemma FromInside(layers: seq<Sample>, k: nat, c: Color, ground: Color)
    requires k <= |layers|
    ensures Drawn(layers[k..], true, c) == Paint(layers, ground) <==> ShownFrom(layers, k) || c == Paint(layers[..k], ground)
  {
    DrawnInside(layers[k..], c);
    PaintSplit(layers, k, ground);
    ShownSuffix(layers, k);
    PaintGround(layers[k..], c, Paint(layers[..k], ground));
    PaintGround(layers[k..], Paint(layers[..k], ground), c);
  }

  /** A point outside the area that was right stays right. */
  lemma FromOutside(layers: seq<Sample>, k: nat, ground: Color)
    requires k <= |layers| && OnlyTopThrough(layers)
    ensures Drawn(layers[k..], false, Paint(layers, ground)) == Paint(layers, ground)
  {
    var upper := layers[k..];
    assert forall i :: 0 <= i < |upper| ==> upper[i] == layers[k + i];
    DrawnOutside(upper, Paint(layers, ground));
  }

  /** A point that was right and at which layer k shows nothing, or one in the area, is right after layer k and those above
      are drawn. */
  lemma FromRight(layers: seq<Sample>, k: nat, inArea: bool, c: Color, ground: Color)
    requires k < |layers| && OnlyTopThrough(layers)
    requires (inArea && layers[k].shown.Some?) || c == Paint(layers, ground)
    ensures Drawn(layers[k..], inArea, c) == Paint(layers, ground)
  {
    if inArea {
      FromInside(layers, k, c, ground);
      PaintSplit(layers, k, ground);
      ShownSuffix(layers, k);
      PaintGround(layers[k..], Paint(layers[..k], ground), c);
    } else {
      FromOutside(layers, k, ground);
    }
  }

  // ----- exactly what drawing restores -----

  /** The color of the topmost layer that has a transparent color and shows another. */
  function TopThrough(layers: seq<Sample>): Option<Color> {
    if layers == [] then None
    else if layers[|layers| - 1].through && layers[|layers| - 1].shown.Some? then layers[|layers| - 1].shown
    else TopThrough(layers[..|layers| - 1])
  }

  /** Outside the area the windows with a transparent color are drawn, and only those. */
  lemma {:induction false} OutsideIs(layers: seq<Sample>, c: Color)
    ensures Drawn(layers, false, c) == if TopThrough(layers).Some? then TopThrough(layers).value else c
  {
    if layers != [] {
      OutsideIs(layers[..|layers| - 1], c);
    }
  }

  /** When a point is right after layer k and those above are drawn: in the area, if one of them shows something or the
      buffer showed what is below them; elsewhere, if the screen was right and the topmost of them with a transparent color
      shows what is to be seen, or, if none shows anything, the buffer did. */
  ghost predicate Restored(layers: seq<Sample>, k: nat, inArea: bool, back: Color, screen: Color, ground: Color)
    requires k <= |layers|
  {
    if inArea then ShownFrom(layers, k) || back == Paint(layers[..k], ground)
    else
      && screen == Paint(layers, ground)
      && Paint(layers, ground) == if TopThrough(layers[k..]).Some? then TopThrough(layers[k..]).value else back
  }

  lemma RestoredExactly(layers: seq<Sample>, k: nat, inArea: bool, back: Color, screen: Color, ground: Color)
    requires k <= |layers|
    ensures var d := Drawn(layers[k..|layers|], inArea, back);
            d == Paint(layers, ground) && (if inArea then d else screen) == d <==> Restored(layers, k, inArea, back, screen, ground)
  {
    assert layers[k..|layers|] == layers[k..];
    FromInside(layers, k, back, ground);
    OutsideIs(layers[k..], back);
  }

  /** A point outside the area that was right stays right exactly if no window with a transparent color shows another color
      there than the one to be seen, or another such window does so above it. */
  lemma StaysRight(layers: seq<Sample>, k: nat, ground: Color)
    requires k <= |layers|
    ensures var c := Paint(layers, ground);
            Restored(layers, k, false, c, c, ground) <==> (TopThrough(layers[k..]).Some? ==> TopThrough(layers[k..]).value == c)
  {
  }

  /** Buffer and screen at a point, before and after layer k and those above are drawn and the area is copied. */
  lemma RestoredPoint(layers: seq<Sample>, k: nat, inArea: bool, back: Color, screen: Color, ground: Color)
    requires k < |layers| && OnlyTopThrough(layers)
    requires (back == Paint(layers, ground) && screen == back) || (inArea && layers[k].shown.Some?)
    ensures var d := Drawn(layers[k..|layers|], inArea, back);
            d == Paint(layers, ground) && (!inArea ==> d == screen)
  {
    assert layers[k..|layers|] == layers[k..];
    FromRight(layers, k, inArea, back, ground);
  }

  // ----- a layer that shows nothing at a point -----

  function Removed<T>(s: seq<T>, k: nat): seq<T>
    requires k < |s|
  {
    s[..k] + s[k + 1..]
  }

  function Inserted<T>(s: seq<T>, k: nat, x: T): seq<T>
    requires k <= |s|
  {
    s[..k] + [x] + s[k..]
  }

  lemma RemovedInserted<T>(s: seq<T>, k: nat, x: T)
    requires k <= |s|
    ensures Removed(Inserted(s, k, x), k) == s
  {
  }

  /** A layer that shows nothing may be left out. */
  lemma PaintRemoved(layers: seq<Sample>, k: nat, ground: Color)
    requires k < |layers| && layers[k].shown.None?
    ensures Paint(Removed(layers, k), ground) == Paint(layers, ground)
  {
    PaintSplit(layers, k + 1, ground);
    assert layers[..k + 1][..k] == layers[..k];
    var r := Removed(layers, k);
    PaintSplit(r, k, ground);
    assert r[k..] == layers[k + 1..] && r[..k] == layers[..k];
  }

  /** Between two looks of a stack only layer k differs; it is within one area, then within the other. */
  ghost predicate Differs(was: seq<Sample>, now: seq<Sample>, k: nat, inOld: bool, inNew: bool) {
    && |was| == |now| && k < |was| && Removed(was, k) == Removed(now, k)
    && (was[k].shown.Some? ==> inOld) && (now[k].shown.Some? ==> inNew)
  }

  lemma DiffersIf(was: seq<Sample>, now: seq<Sample>, k: nat, inOld: bool, inNew: bool)
    requires |was| == |now| && k < |was| && forall i :: 0 <= i < |was| && i != k ==> was[i] == now[i]
    requires (was[k].shown.Some? ==> inOld) && (now[k].shown.Some? ==> inNew)
    ensures Differs(was, now, k, inOld, inNew)
  {
  }

  /** Layer k is moved or changed; what it showed is in the old area and what it shows now in the new one. Drawing all
      layers in the old area, and then layer k and those above in the new one, is enough for buffer and screen. */
  lemma MovedPoint(was: seq<Sample>, now: seq<Sample>, k: nat, inOld: bool, inNew: bool, ground: Color)
    requires Differs(was, now, k, inOld, inNew) && OnlyTopThrough(now) && now[0].shown.Some?
    ensures var c := Paint(was, ground);
            var d := Drawn(now[0..|now|], inOld, c);
            var e := Drawn(now[k..|now|], inNew, d);
            e == Paint(now, ground) && (!inNew ==> (if inOld then d else c) == e)
  {
    var c := Paint(was, ground);
    var d := Drawn(now, inOld, c);
    assert now[0..|now|] == now && now[k..|now|] == now[k..];
    if inOld {
      AreaInside(now, c, ground);
      FromRightAny(now, k, inNew, ground);
    } else {
      PaintRemoved(was, k, ground);
      DrawnOutside(now, c);
      if now[k].shown.None? {
        PaintRemoved(now, k, ground);
        FromRightAny(now, k, inNew, ground);
      } else {
        FromRight(now, k, true, d, ground);
      }
    }
  }

  lemma FromRightAny(layers: seq<Sample>, k: nat, inArea: bool, ground: Color)
    requires k < |layers| && OnlyTopThrough(layers)
    ensures Drawn(layers[k..], inArea, Paint(layers, ground)) == Paint(layers, ground)
  {
    if !inArea || layers[k].shown.Some? {
      FromRight(layers, k, inArea, Paint(layers, ground), ground);
    } else {
      FromInside(layers, k, Paint(layers, ground), ground);
      ShownSuffix(layers, k);
      PaintSplit(layers, k, ground);
      PaintGround(layers[k..], Paint(layers[..k], ground), ground);
    }
  }
}
