/** Rectangles of the window, in exact logical pixels (react/renderer/graphics' Rect). */
module Geometry {

  datatype Rect = Rect(x: real, y: real, width: real, height: real) {
    function MaxX(): real { x + width }

    function MaxY(): real { y + height }

    predicate Empty() { width <= 0.0 || height <= 0.0 }

    /** Half open, so that rectangles sharing an edge share no point. */
    predicate Contains(px: real, py: real) {
      x <= px < MaxX() && y <= py < MaxY()
    }
  }

  const NOWHERE := Rect(0.0, 0.0, 0.0, 0.0)

  function Min(a: real, b: real): real { if b < a then b else a }

  function Max(a: real, b: real): real { if a < b then b else a }

  function Intersect(a: Rect, b: Rect): Rect {
    var x0, y0 := Max(a.x, b.x), Max(a.y, b.y);
    var x1, y1 := Min(a.MaxX(), b.MaxX()), Min(a.MaxY(), b.MaxY());
    if x0 < x1 && y0 < y1 then Rect(x0, y0, x1 - x0, y1 - y0) else NOWHERE
  }

  /** Whether the two share an area, not just an edge. */
  predicate Overlap(a: Rect, b: Rect) {
    !Intersect(a, b).Empty()
  }

  predicate Inside(a: Rect, b: Rect) {
    b.x <= a.x && b.y <= a.y && a.MaxX() <= b.MaxX() && a.MaxY() <= b.MaxY()
  }

  lemma OverlapInWindow(r: Rect, window: Rect, cell: Rect)
    requires Inside(cell, window) && Overlap(r, cell)
    ensures !Intersect(r, window).Empty() && Overlap(Intersect(r, window), cell)
  {
  }

  lemma OverlapGrows(r: Rect, all: Rect, cell: Rect)
    requires Inside(r, all) && Overlap(r, cell)
    ensures Overlap(all, cell)
  {
  }

  function Band(x0: real, y0: real, x1: real, y1: real): seq<Rect> {
    if x1 > x0 && y1 > y0 then [Rect(x0, y0, x1 - x0, y1 - y0)] else []
  }

  /** What `Outside` pushes: the bands of `a` above, below, left and right of what it shares with `b`. */
  function Bands(a: Rect, b: Rect): seq<Rect> {
    var common := Intersect(a, b);
    if common.Empty() then [a]
    else
      Band(a.x, a.y, a.MaxX(), common.y) +
      Band(a.x, common.MaxY(), a.MaxX(), a.MaxY()) +
      Band(a.x, common.y, common.x, common.MaxY()) +
      Band(common.MaxX(), common.y, a.MaxX(), common.MaxY())
  }

  method Outside(a: Rect, b: Rect, before: seq<Rect>) returns (out: seq<Rect>)
    ensures out == before + Bands(a, b)
  {
    out := before;
    var common := Intersect(a, b);
    if common.width <= 0.0 || common.height <= 0.0 {
      out := out + [a];
      return;
    }
    out := out + Band(a.x, a.y, a.MaxX(), common.y);
    out := out + Band(a.x, common.MaxY(), a.MaxX(), a.MaxY());
    out := out + Band(a.x, common.y, common.x, common.MaxY());
    out := out + Band(common.MaxX(), common.y, a.MaxX(), common.MaxY());
  }

  /** The bands are at most four, disjoint, and hold exactly the points of `a` that are not in `b`. */
  lemma BandsAreDifference(a: Rect, b: Rect)
    ensures |Bands(a, b)| <= 4
    ensures forall i, j, px, py :: 0 <= i < j < |Bands(a, b)| ==>
              !(Bands(a, b)[i].Contains(px, py) && Bands(a, b)[j].Contains(px, py))
    ensures forall px, py ::
      (exists r :: r in Bands(a, b) && r.Contains(px, py)) <==> a.Contains(px, py) && !b.Contains(px, py)
  {
    forall px, py
      ensures (exists r :: r in Bands(a, b) && r.Contains(px, py)) <==> a.Contains(px, py) && !b.Contains(px, py)
    {
      BandsHold(a, b, px, py);
    }
  }

  lemma BandsHold(a: Rect, b: Rect, px: real, py: real)
    ensures (exists r :: r in Bands(a, b) && r.Contains(px, py)) <==> a.Contains(px, py) && !b.Contains(px, py)
  {
    var common := Intersect(a, b);
    if !common.Empty() {
      var top, bottom := Band(a.x, a.y, a.MaxX(), common.y), Band(a.x, common.MaxY(), a.MaxX(), a.MaxY());
      var left, right :=
        Band(a.x, common.y, common.x, common.MaxY()), Band(common.MaxX(), common.y, a.MaxX(), common.MaxY());
      assert forall r :: r in Bands(a, b) <==> r in top || r in bottom || r in left || r in right;
      if a.Contains(px, py) && !b.Contains(px, py) {
        if py < common.y {
          assert top[0] in Bands(a, b) && top[0].Contains(px, py);
        } else if py >= common.MaxY() {
          assert bottom[0] in Bands(a, b) && bottom[0].Contains(px, py);
        } else if px < common.x {
          assert left[0] in Bands(a, b) && left[0].Contains(px, py);
        } else {
          assert right[0] in Bands(a, b) && right[0].Contains(px, py);
        }
      }
    } else {
      assert Bands(a, b) == [a];
      assert a in Bands(a, b);
    }
  }

  /** Used both ways, the bands are the symmetric difference: a cell none of them overlaps is covered alike. */
  lemma SymmetricDifference(a: Rect, b: Rect, cell: Rect)
    requires !cell.Empty()
    requires forall r :: r in Bands(a, b) || r in Bands(b, a) ==> !Overlap(r, cell)
    ensures Intersect(a, cell) == Intersect(b, cell)
  {
    CoveredStays(a, b, cell);
    CoveredStays(b, a, cell);
    if Overlap(a, cell) || Overlap(b, cell) {
      assert Inside(Intersect(a, cell), Intersect(b, cell));
      assert Inside(Intersect(b, cell), Intersect(a, cell));
    }
  }

  lemma CoveredStays(a: Rect, b: Rect, cell: Rect)
    requires forall r :: r in Bands(a, b) ==> !Overlap(r, cell)
    ensures Overlap(a, cell) ==> Inside(Intersect(a, cell), b)
  {
    if Overlap(a, cell) {
      var common, kept := Intersect(a, b), Intersect(a, cell);
      if !common.Empty() {
        BandApart(Band(a.x, a.y, a.MaxX(), common.y), a, b, cell);
        BandApart(Band(a.x, common.MaxY(), a.MaxX(), a.MaxY()), a, b, cell);
        assert common.y <= kept.y && kept.MaxY() <= common.MaxY();
        BandApart(Band(a.x, common.y, common.x, common.MaxY()), a, b, cell);
        BandApart(Band(common.MaxX(), common.y, a.MaxX(), common.MaxY()), a, b, cell);
        assert common.x <= kept.x && kept.MaxX() <= common.MaxX();
      }
    }
  }

  /** A cell of `a` outside `b` is in what the bands hold. */
  lemma BandsReach(a: Rect, b: Rect, cell: Rect)
    requires Inside(cell, a) && !cell.Empty() && !Overlap(cell, b)
    ensures exists r :: r in Bands(a, b) && Overlap(r, cell)
  {
    if forall r :: r in Bands(a, b) ==> !Overlap(r, cell) {
      CoveredStays(a, b, cell);
    }
  }

  lemma BandApart(band: seq<Rect>, a: Rect, b: Rect, cell: Rect)
    requires forall r :: r in Bands(a, b) ==> !Overlap(r, cell)
    requires forall r :: r in band ==> r in Bands(a, b)
    ensures band != [] ==> !Overlap(band[0], cell)
  {
  }

  /** The least rectangle holding them all, as the loop of `bounding` widens it. */
  method Bounding(rects: seq<Rect>) returns (all: Rect)
    requires rects != []
    ensures forall r :: r in rects ==> Inside(r, all)
    ensures forall other: Rect {:trigger Inside(all, other)} ::
      (forall r :: r in rects ==> Inside(r, other)) ==> Inside(all, other)
  {
    var left, top := rects[0].x, rects[0].y;
    var right, bottom := rects[0].MaxX(), rects[0].MaxY();
    for i := 0 to |rects|
      invariant forall k :: 0 <= k < i ==>
        left <= rects[k].x && top <= rects[k].y && rects[k].MaxX() <= right && rects[k].MaxY() <= bottom
      invariant exists k :: 0 <= k < |rects| && rects[k].x == left
      invariant exists k :: 0 <= k < |rects| && rects[k].y == top
      invariant exists k :: 0 <= k < |rects| && rects[k].MaxX() == right
      invariant exists k :: 0 <= k < |rects| && rects[k].MaxY() == bottom
    {
      left, top := Min(left, rects[i].x), Min(top, rects[i].y);
      right, bottom := Max(right, rects[i].MaxX()), Max(bottom, rects[i].MaxY());
    }
    all := Rect(left, top, right - left, bottom - top);
    forall other: Rect | forall r :: r in rects ==> Inside(r, other) ensures Inside(all, other) {
      assert forall k :: 0 <= k < |rects| ==> Inside(rects[k], other);
    }
  }
}
