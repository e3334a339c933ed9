/** Sums over a rectangle of pixels, directly and from a summed-area table. */
module Sums {

  /** A value for every pixel, by row and column. */
  type Field = (int, int) -> real

  function RowSum(f: Field, y: int, x0: int, x1: int): real
    decreases x1 - x0
  {
    if x1 <= x0 then 0.0 else RowSum(f, y, x0, x1 - 1) + f(y, x1 - 1)
  }

  /** The sum over rows y0 <= y < y1 and columns x0 <= x < x1, added up pixel by pixel. */
  function BoxSum(f: Field, y0: int, y1: int, x0: int, x1: int): real
    decreases y1 - y0
  {
    if y1 <= y0 then 0.0 else BoxSum(f, y0, y1 - 1, x0, x1) + RowSum(f, y1 - 1, x0, x1)
  }

  /** An integral image's entry: the sum above and left of it. */
  function Table(f: Field, y: int, x: int): real { BoxSum(f, 0, y, 0, x) }

  lemma {:induction false} RowSplits(f: Field, y: int, x0: int, x1: int)
    requires 0 <= x0 <= x1
    ensures RowSum(f, y, x0, x1) == RowSum(f, y, 0, x1) - RowSum(f, y, 0, x0)
    decreases x1 - x0
  {
    if x0 < x1 { RowSplits(f, y, x0, x1 - 1); }
  }

  lemma {:induction false} ColumnsSplit(f: Field, y0: int, y1: int, x0: int, x1: int)
    requires 0 <= x0 <= x1
    ensures BoxSum(f, y0, y1, x0, x1) == BoxSum(f, y0, y1, 0, x1) - BoxSum(f, y0, y1, 0, x0)
    decreases y1 - y0
  {
    if y0 < y1 {
      ColumnsSplit(f, y0, y1 - 1, x0, x1);
      RowSplits(f, y1 - 1, x0, x1);
    }
  }

  lemma {:induction false} RowsSplit(f: Field, y0: int, y1: int, x: int)
    requires 0 <= y0 <= y1
    ensures BoxSum(f, y0, y1, 0, x) == Table(f, y1, x) - Table(f, y0, x)
    decreases y1 - y0
  {
    if y0 < y1 { RowsSplit(f, y0, y1 - 1, x); }
  }

  /** Four entries of the table give the sum over any box. */
  lemma {:induction false} BoxFromTable(f: Field, y0: int, y1: int, x0: int, x1: int)
    requires 0 <= y0 <= y1 && 0 <= x0 <= x1
    ensures BoxSum(f, y0, y1, x0, x1) == Table(f, y1, x1) - Table(f, y0, x1) - Table(f, y1, x0) + Table(f, y0, x0)
  {
    ColumnsSplit(f, y0, y1, x0, x1);
    RowsSplit(f, y0, y1, x1);
    RowsSplit(f, y0, y1, x0);
  }

  // Sums of fields combined pixel by pixel.

  function Plus(f: Field, g: Field): Field { (y, x) => f(y, x) + g(y, x) }

  function Scaled(a: real, f: Field): Field { (y, x) => a * f(y, x) }

  function Product(f: Field, g: Field): Field { (y, x) => f(y, x) * g(y, x) }

  function Always(e: real): Field { (y, x) => e }

  function Area(y0: int, y1: int, x0: int, x1: int): real { ((y1 - y0) * (x1 - x0)) as real }

  lemma {:induction false} PlusRow(f: Field, g: Field, y: int, x0: int, x1: int)
    ensures RowSum(Plus(f, g), y, x0, x1) == RowSum(f, y, x0, x1) + RowSum(g, y, x0, x1)
    decreases x1 - x0
  {
    if x0 < x1 { PlusRow(f, g, y, x0, x1 - 1); }
  }

  lemma {:induction false} PlusBox(f: Field, g: Field, y0: int, y1: int, x0: int, x1: int)
    ensures BoxSum(Plus(f, g), y0, y1, x0, x1) == BoxSum(f, y0, y1, x0, x1) + BoxSum(g, y0, y1, x0, x1)
    decreases y1 - y0
  {
    if y0 < y1 {
      PlusBox(f, g, y0, y1 - 1, x0, x1);
      PlusRow(f, g, y1 - 1, x0, x1);
    }
  }

  lemma {:induction false} ScaledRow(a: real, f: Field, y: int, x0: int, x1: int)
    ensures RowSum(Scaled(a, f), y, x0, x1) == a * RowSum(f, y, x0, x1)
    decreases x1 - x0
  {
    if x0 < x1 { ScaledRow(a, f, y, x0, x1 - 1); }
  }

  lemma {:induction false} ScaledBox(a: real, f: Field, y0: int, y1: int, x0: int, x1: int)
    ensures BoxSum(Scaled(a, f), y0, y1, x0, x1) == a * BoxSum(f, y0, y1, x0, x1)
    decreases y1 - y0
  {
    if y0 < y1 {
      ScaledBox(a, f, y0, y1 - 1, x0, x1);
      ScaledRow(a, f, y1 - 1, x0, x1);
    }
  }

  lemma {:induction false} AlwaysRow(e: real, y: int, x0: int, x1: int)
    requires x0 <= x1
    ensures RowSum(Always(e), y, x0, x1) == e * (x1 - x0) as real
    decreases x1 - x0
  {
    if x0 < x1 {
      AlwaysRow(e, y, x0, x1 - 1);
      assert (x1 - x0) as real == (x1 - 1 - x0) as real + 1.0;
    }
  }

  lemma {:induction false} AlwaysBox(e: real, y0: int, y1: int, x0: int, x1: int)
    requires y0 <= y1 && x0 <= x1
    ensures BoxSum(Always(e), y0, y1, x0, x1) == e * Area(y0, y1, x0, x1)
    decreases y1 - y0
  {
    if y0 < y1 {
      AlwaysBox(e, y0, y1 - 1, x0, x1);
      AlwaysRow(e, y1 - 1, x0, x1);
      assert Area(y0, y1, x0, x1) == Area(y0, y1 - 1, x0, x1) + (x1 - x0) as real by {
        assert (y1 - y0) * (x1 - x0) == (y1 - 1 - y0) * (x1 - x0) + (x1 - x0);
      }
    }
  }

  // Sums of what is never negative.

  lemma {:induction false} RowNonnegative(f: Field, y: int, x0: int, x1: int)
    requires forall x :: x0 <= x < x1 ==> f(y, x) >= 0.0
    ensures RowSum(f, y, x0, x1) >= 0.0
    ensures RowSum(f, y, x0, x1) == 0.0 ==> forall x :: x0 <= x < x1 ==> f(y, x) == 0.0
    decreases x1 - x0
  {
    if x0 < x1 { RowNonnegative(f, y, x0, x1 - 1); }
  }

  lemma {:induction false} BoxNonnegative(f: Field, y0: int, y1: int, x0: int, x1: int)
    requires forall y, x :: y0 <= y < y1 && x0 <= x < x1 ==> f(y, x) >= 0.0
    ensures BoxSum(f, y0, y1, x0, x1) >= 0.0
    ensures BoxSum(f, y0, y1, x0, x1) == 0.0 ==> forall y, x :: y0 <= y < y1 && x0 <= x < x1 ==> f(y, x) == 0.0
    decreases y1 - y0
  {
    if y0 < y1 {
      BoxNonnegative(f, y0, y1 - 1, x0, x1);
      RowNonnegative(f, y1 - 1, x0, x1);
    }
  }

  /** Fields alike over a box have the same sum there. */
  lemma {:induction false} BoxAlike(f: Field, g: Field, y0: int, y1: int, x0: int, x1: int)
    requires forall y, x :: y0 <= y < y1 && x0 <= x < x1 ==> f(y, x) == g(y, x)
    ensures BoxSum(f, y0, y1, x0, x1) == BoxSum(g, y0, y1, x0, x1)
    decreases y1 - y0
  {
    if y0 < y1 {
      BoxAlike(f, g, y0, y1 - 1, x0, x1);
      RowAlike(f, g, y1 - 1, x0, x1);
    }
  }

  lemma {:induction false} RowAlike(f: Field, g: Field, y: int, x0: int, x1: int)
    requires forall x :: x0 <= x < x1 ==> f(y, x) == g(y, x)
    ensures RowSum(f, y, x0, x1) == RowSum(g, y, x0, x1)
    decreases x1 - x0
  {
    if x0 < x1 { RowAlike(f, g, y, x0, x1 - 1); }
  }
}
