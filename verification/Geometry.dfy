/** Vectors and rectangles of the screen. */
module Geometry {
  datatype Vector = Vector(x: int, y: int)

  datatype Rectangle = Rectangle(pos: Vector, size: Vector)

  function Plus(a: Vector, b: Vector): Vector {
    Vector(a.x + b.x, a.y + b.y)
  }

  function Minus(a: Vector, b: Vector): Vector {
    Vector(a.x - b.x, a.y - b.y)
  }

  function Min(a: int, b: int): int {
    if b < a then b else a
  }

  function Max(a: int, b: int): int {
    if a < b then b else a
  }

  function ElementMax(a: Vector, b: Vector): Vector {
    Vector(Max(a.x, b.x), Max(a.y, b.y))
  }

  function ElementMin(a: Vector, b: Vector): Vector {
    Vector(Min(a.x, b.x), Min(a.y, b.y))
  }

  predicate Proper(r: Rectangle) {
    0 <= r.size.x && 0 <= r.size.y
  }

  predicate In(r: Rectangle, p: Vector) {
    r.pos.x <= p.x < r.pos.x + r.size.x && r.pos.y <= p.y < r.pos.y + r.size.y
  }

  /** The common part of two rectangles, an empty one at the origin if they are apart. */
  function Meet(a: Rectangle, b: Rectangle): Rectangle {
    var aEnd, bEnd := Plus(a.pos, a.size), Plus(b.pos, b.size);
    if aEnd.x < b.pos.x || aEnd.y < b.pos.y || bEnd.x < a.pos.x || bEnd.y < a.pos.y
    then Rectangle(Vector(0, 0), Vector(0, 0))
    else
      var pos := ElementMax(a.pos, b.pos);
      Rectangle(pos, Minus(ElementMin(aEnd, bEnd), pos))
  }

  lemma MeetIs(a: Rectangle, b: Rectangle)
    requires Proper(a) && Proper(b)
    ensures Proper(Meet(a, b))
    ensures forall p :: In(Meet(a, b), p) <==> In(a, p) && In(b, p)
  {
  }

  lemma BackAndForth(d: Vector)
    ensures forall p :: Plus(Minus(p, d), d) == p
  {
    forall p
      ensures Plus(Minus(p, d), d) == p
    {
      var q := Plus(Minus(p, d), d);
      assert q.x == p.x && q.y == p.y;
    }
  }
}
