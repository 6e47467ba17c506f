/** Axis-aligned boxes built from two corners (src/box.js). */
module Boxes {
  import opened Vectors

  datatype Box = Box(startX: real, startY: real, endX: real, endY: real)

  function Min(a: real, b: real): real { if a <= b then a else b }
  function Max(a: real, b: real): real { if a <= b then b else a }

  /** `new Box(a, b)`: the corners are normalised so that the start lies
      below the end on each axis, whatever order they come in. */
  function MakeBox(a: Vector, b: Vector): (r: Box)
    ensures r.startX <= r.endX && r.startY <= r.endY
    ensures (r.startX, r.endX) == (a.x, b.x) || (r.startX, r.endX) == (b.x, a.x)
    ensures (r.startY, r.endY) == (a.y, b.y) || (r.startY, r.endY) == (b.y, a.y)
  {
    Box(Min(a.x, b.x), Min(a.y, b.y), Max(a.x, b.x), Max(a.y, b.y))
  }

  /** A box is well formed when its start does not lie past its end; every
      box built by `MakeBox` is. */
  predicate WellFormed(box: Box) {
    box.startX <= box.endX && box.startY <= box.endY
  }

  /** The least corner: it lies in a well-formed box, and no point of the
      box lies left of or above it. */
  function TopLeft(box: Box): (r: Vector)
    ensures WellFormed(box) ==> Contains(box, r)
    ensures forall p :: Contains(box, p) ==> r.x <= p.x && r.y <= p.y
  {
    Vector(box.startX, box.startY)
  }

  /** The greatest corner: it lies in a well-formed box, and no point of the
      box lies right of or below it. */
  function BottomRight(box: Box): (r: Vector)
    ensures WellFormed(box) ==> Contains(box, r)
    ensures forall p :: Contains(box, p) ==> p.x <= r.x && p.y <= r.y
  {
    Vector(box.endX, box.endY)
  }

  /** Inclusive on all four edges; only a well-formed box contains
      anything. */
  predicate Contains(box: Box, position: Vector)
    ensures Contains(box, position) ==> WellFormed(box)
  {
    position.x >= box.startX && position.x <= box.endX
      && position.y >= box.startY && position.y <= box.endY
  }

  /** False when one box lies strictly left of or strictly above the other;
      touching edges count as overlapping. */
  predicate Overlaps(box: Box, other: Box) {
    if box.startX > other.endX || other.startX > box.endX then false
    else if box.startY > other.endY || other.startY > box.endY then false
    else true
  }

  // ---------------------------------------------------------------------

  /** The order of the two corners does not matter. */
  lemma MakeBoxSymmetric(a: Vector, b: Vector)
    ensures MakeBox(a, b) == MakeBox(b, a)
  {
  }

  /** Both corners of a box built from `a` and `b` lie in it, as do `a` and
      `b` themselves. */
  lemma CornersContained(a: Vector, b: Vector)
    ensures var box := MakeBox(a, b);
      Contains(box, TopLeft(box)) && Contains(box, BottomRight(box))
      && Contains(box, a) && Contains(box, b)
  {
  }

  lemma OverlapsSymmetric(box: Box, other: Box)
    ensures Overlaps(box, other) == Overlaps(other, box)
  {
  }

  lemma OverlapsReflexive(box: Box)
    requires WellFormed(box)
    ensures Overlaps(box, box)
  {
  }

  /** Well-formed boxes overlap exactly when some point lies in both. */
  lemma {:induction false} OverlapsIffCommonPoint(box: Box, other: Box)
    requires WellFormed(box) && WellFormed(other)
    ensures Overlaps(box, other) <==> exists p :: Contains(box, p) && Contains(other, p)
  {
    if Overlaps(box, other) {
      var p := Vector(Max(box.startX, other.startX), Max(box.startY, other.startY));
      assert Contains(box, p) && Contains(other, p);
    }
  }

  /** The three cases of the source's unit tests. */
  lemma OverlapExamples()
    ensures var box := MakeBox(Zero(), Vector(5.0, 5.0));
      && Overlaps(box, MakeBox(Vector(4.0, 3.0), Vector(7.0, 7.0)))
      && Overlaps(box, MakeBox(Vector(5.0, 5.0), Vector(7.0, 7.0)))
      && !Overlaps(box, MakeBox(Vector(6.0, 6.0), Vector(7.0, 7.0)))
  {
  }
}
