/** A PNG's rows: the five filters of section 6 of RFC 2083, undone in place. */
module PngFilters {
  type Byte = n: nat | n < 256

  /** A sum of bytes, in a byte. */
  function Wrapped(a: int, b: int): Byte { (a + b) % 256 }

  function Average(a: Byte, b: Byte): Byte { (a as int + b as int) / 2 }

  /** A row's byte one pixel before, 0 before its first. */
  function Before(row: seq<Byte>, i: nat, bpp: nat): Byte
    requires i <= |row| && bpp > 0
  {
    if i >= bpp then row[i - bpp] else 0
  }

  function Distance(a: int, b: int): nat { if a < b then b - a else a - b }

  /** The Paeth predictor: whichever of the byte before, above and above it the sum comes nearest to. */
  function Paeth(a: Byte, b: Byte, c: Byte): (p: Byte)
    ensures p in {a, b, c}
    ensures Distance(a + b - c, p) <= Distance(a + b - c, a) && Distance(a + b - c, p) <= Distance(a + b - c, b) &&
            Distance(a + b - c, p) <= Distance(a + b - c, c)
  {
    var p := a + b - c;
    if Distance(p, a) <= Distance(p, b) && Distance(p, a) <= Distance(p, c) then a
    else if Distance(p, b) <= Distance(p, c) then b
    else c
  }

  /** What a filter predicts of a row's byte from those before it and the row above; nothing for an unknown filter. */
  function Predict(kind: Byte, row: seq<Byte>, previous: seq<Byte>, i: nat, bpp: nat): Byte
    requires i <= |row| && i < |previous| && bpp > 0
  {
    var a, b, c := Before(row, i, bpp), previous[i], Before(previous, i, bpp);
    if kind == 1 then a
      else if kind == 2 then b else if kind == 3 then Average(a, b) else if kind == 4 then Paeth(a, b, c) else 0
  }

  /** A row filtered: each byte less what is predicted of it. */
  function Filter(kind: Byte, row: seq<Byte>, previous: seq<Byte>, bpp: nat): (line: seq<Byte>)
    requires |row| == |previous| && bpp > 0
    ensures |line| == |row|
  {
    seq(|row|, i requires 0 <= i < |row| => Wrapped(row[i], -(Predict(kind, row, previous, i, bpp) as int)))
  }

  /** The first `n` bytes of a row, from its line: each byte and what those before it predict of it. */
  function Unfilter(kind: Byte, line: seq<Byte>, previous: seq<Byte>, bpp: nat, n: nat): (row: seq<Byte>)
    requires n <= |line| == |previous| && bpp > 0
    ensures |row| == n
  {
    if n == 0 then []
    else
      var row := Unfilter(kind, line, previous, bpp, n - 1);
      row + [Wrapped(line[n - 1], Predict(kind, row, previous, n - 1, bpp))]
  }

  lemma PredictPrefix(kind: Byte, row: seq<Byte>, more: seq<Byte>, previous: seq<Byte>, i: nat, bpp: nat)
    requires i <= |row| && i <= |more| && row[..i] == more[..i] && i < |previous| && bpp > 0
    ensures Predict(kind, row, previous, i, bpp) == Predict(kind, more, previous, i, bpp)
  {
    if i >= bpp { assert row[i - bpp] == row[..i][i - bpp] == more[..i][i - bpp]; }
  }

  lemma WrappedNear(a: int, b: int)
    requires -256 <= a + b < 512
    ensures Wrapped(a, b) == if a + b < 0 then a + b + 256 else if a + b < 256 then a + b else a + b - 256
  {
  }

  lemma WrappedBack(a: Byte, b: Byte)
    ensures Wrapped(Wrapped(a, -(b as int)), b) == a && Wrapped(Wrapped(a, b), -(b as int)) == a
  {
    hide Wrapped;
    WrappedNear(a, -(b as int));
    WrappedNear(Wrapped(a, -(b as int)), b);
    WrappedNear(a, b);
    WrappedNear(Wrapped(a, b), -(b as int));
  }

  /** Undoing a filter gives the row back, whatever the filter, the row above and the bytes per pixel. */
  lemma {:induction false} UnfilterFilter(kind: Byte, row: seq<Byte>, previous: seq<Byte>, bpp: nat, n: nat)
    requires |row| == |previous| && n <= |row| && bpp > 0
    ensures Unfilter(kind, Filter(kind, row, previous, bpp), previous, bpp, n) == row[..n]
  {
    hide Predict, Wrapped;
    if n > 0 {
      UnfilterFilter(kind, row, previous, bpp, n - 1);
      WrappedBack(row[n - 1], Predict(kind, row, previous, n - 1, bpp));
      PredictPrefix(kind, row, row[..n - 1], previous, n - 1, bpp);
      assert row[..n] == row[..n - 1] + [row[n - 1]];
    }
  }

  lemma {:induction false} UnfilterAt(kind: Byte, line: seq<Byte>, previous: seq<Byte>, bpp: nat, n: nat, i: nat)
    requires i < n <= |line| == |previous| && bpp > 0
    ensures Unfilter(kind, line, previous, bpp, n)[..i] == Unfilter(kind, line, previous, bpp, i)
    ensures Unfilter(kind, line, previous, bpp, n)[i] ==
              Wrapped(line[i], Predict(kind, Unfilter(kind, line, previous, bpp, n), previous, i, bpp))
  {
    var row, before := Unfilter(kind, line, previous, bpp, n), Unfilter(kind, line, previous, bpp, n - 1);
    if i < n - 1 {
      UnfilterAt(kind, line, previous, bpp, n - 1, i);
      assert row[..i] == before[..i];
      PredictPrefix(kind, row, before, previous, i, bpp);
    } else {
      assert row[..i] == before;
      PredictPrefix(kind, row, before, previous, i, bpp);
    }
  }

  function Absolute(a: int): nat { if a < 0 then -a else a }

  /** What each filter predicts, in numbers: of the byte to the left, the one above and the one above that. */
  function Predicted(kind: int, a: int, b: int, c: int): int {
    match kind
    case 1 => a
    case 2 => b
    case 3 => (a + b) / 2
    case 4 =>
      if Absolute(b - c) <= Absolute(a - c) && Absolute(b - c) <= Absolute(a + b - 2 * c) then a
      else if Absolute(a - c) <= Absolute(a + b - 2 * c) then b
      else c
    case _ => 0
  }

  lemma PredictNumbers(kind: Byte, row: seq<Byte>, previous: seq<Byte>, i: nat, bpp: nat)
    requires i <= |row| && i < |previous| && bpp > 0
    ensures Predict(kind, row, previous, i, bpp) ==
            Predicted(kind, Before(row, i, bpp), previous[i], Before(previous, i, bpp))
  {
    hide Before;
  }

  lemma WrappedIs(a: Byte, b: Byte)
    ensures Wrapped(a, b) == (a + b) % 256
  {
  }

  /** A row's bytes from its line, in numbers. */
  lemma {:induction false} UnfilteredBytes(kind: Byte, line: seq<Byte>, previous: seq<Byte>, bpp: nat, i: nat)
    requires i < |line| == |previous| && bpp > 0
    ensures var row := Unfilter(kind, line, previous, bpp, |line|);
            row[i] == (line[i] + Predicted(kind, if i < bpp then 0 else row[i - bpp], previous[i],
                                           if i < bpp then 0 else previous[i - bpp])) % 256
  {
    hide Unfilter, Predict, Predicted, Wrapped;
    var row := Unfilter(kind, line, previous, bpp, |line|);
    UnfilterAt(kind, line, previous, bpp, |line|, i);
    PredictNumbers(kind, row, previous, i, bpp);
    WrappedIs(line[i], Predict(kind, row, previous, i, bpp));
  }

  /** Filtering a row read gives its line back: each line is of one row. */
  lemma {:induction false} FilterUnfilter(kind: Byte, line: seq<Byte>, previous: seq<Byte>, bpp: nat)
    requires |line| == |previous| && bpp > 0
    ensures Filter(kind, Unfilter(kind, line, previous, bpp, |line|), previous, bpp) == line
  {
    hide Predict, Wrapped, Unfilter;
    var row := Unfilter(kind, line, previous, bpp, |line|);
    forall i | 0 <= i < |line| ensures Filter(kind, row, previous, bpp)[i] == line[i] {
      UnfilterAt(kind, line, previous, bpp, |line|, i);
      WrappedBack(line[i], Predict(kind, row, previous, i, bpp));
    }
  }

  /** The row filtered by `kind`, in place. */
  method UnfilterInPlace(kind: Byte, line: array<Byte>, previous: seq<Byte>, bpp: nat)
    requires line.Length == |previous| && bpp > 0
    modifies line
    ensures line[..] == Unfilter(kind, old(line[..]), previous, bpp, |previous|)
  {
    if kind == 1 {
      UndoSub(line, previous, bpp);
    } else if kind == 2 {
      UndoUp(line, previous, bpp);
    } else if kind == 3 {
      UndoAverage(line, previous, bpp);
    } else if kind == 4 {
      UndoPaeth(line, previous, bpp);
    } else {
      Unknown(kind, line[..], previous, bpp, |previous|);
    }
  }

  method UndoSub(line: array<Byte>, previous: seq<Byte>, bpp: nat)
    requires line.Length == |previous| && bpp > 0
    modifies line
    ensures line[..] == Unfilter(1, old(line[..]), previous, bpp, |previous|)
  {
    hide Unfilter, Predict;
    ghost var was := line[..];
    SubStart(was, previous, bpp, if bpp < |previous| then bpp else |previous|);
    assert was[..|was|] == was;
    if bpp < |previous| {
      for i := bpp to |previous|
        invariant Undone(1, line[..], was, previous, bpp, i)
      {
        Undo(1, line[..], was, previous, bpp, i);
        PredictIs(line[..], previous, i, bpp);
        line[i] := Wrapped(line[i], line[i - bpp]);
      }
    }
  }

  method UndoUp(line: array<Byte>, previous: seq<Byte>, bpp: nat)
    requires line.Length == |previous| && bpp > 0
    modifies line
    ensures line[..] == Unfilter(2, old(line[..]), previous, bpp, |previous|)
  {
    hide Predict, Undone, Unfilter, Wrapped;
    ghost var was := line[..];
    UndoneStart(2, was, previous, bpp);
    for i := 0 to |previous|
      invariant Undone(2, line[..], was, previous, bpp, i)
    {
      Undo(2, line[..], was, previous, bpp, i);
      PredictIs(line[..], previous, i, bpp);
      line[i] := Wrapped(line[i], previous[i]);
    }
    UndoneEnd(2, line[..], was, previous, bpp);
  }

  method UndoAverage(line: array<Byte>, previous: seq<Byte>, bpp: nat)
    requires line.Length == |previous| && bpp > 0
    modifies line
    ensures line[..] == Unfilter(3, old(line[..]), previous, bpp, |previous|)
  {
    hide Predict, Undone, Unfilter, Wrapped, Average, Before;
    ghost var was := line[..];
    UndoneStart(3, was, previous, bpp);
    for i := 0 to |previous|
      invariant Undone(3, line[..], was, previous, bpp, i)
    {
      Undo(3, line[..], was, previous, bpp, i);
      PredictIs(line[..], previous, i, bpp);
      var left := Before(line[..], i, bpp);
      line[i] := Wrapped(line[i], Average(left, previous[i]));
    }
    UndoneEnd(3, line[..], was, previous, bpp);
  }

  method UndoPaeth(line: array<Byte>, previous: seq<Byte>, bpp: nat)
    requires line.Length == |previous| && bpp > 0
    modifies line
    ensures line[..] == Unfilter(4, old(line[..]), previous, bpp, |previous|)
  {
    hide Predict, Paeth, Undone, Unfilter, Wrapped, Before;
    ghost var was := line[..];
    UndoneStart(4, was, previous, bpp);
    for i := 0 to |previous|
      invariant Undone(4, line[..], was, previous, bpp, i)
    {
      Undo(4, line[..], was, previous, bpp, i);
      PredictIs(line[..], previous, i, bpp);
      var a, c := Before(line[..], i, bpp), Before(previous, i, bpp);
      line[i] := Wrapped(line[i], Paeth(a, previous[i], c));
    }
    UndoneEnd(4, line[..], was, previous, bpp);
  }

  lemma UndoneStart(kind: Byte, was: seq<Byte>, previous: seq<Byte>, bpp: nat)
    requires |was| == |previous| && bpp > 0
    ensures Undone(kind, was, was, previous, bpp, 0)
  {
  }

  lemma {:induction false} UndoneEnd(kind: Byte, now: seq<Byte>, was: seq<Byte>, previous: seq<Byte>, bpp: nat)
    requires |was| == |previous| && bpp > 0 && Undone(kind, now, was, previous, bpp, |previous|)
    ensures now == Unfilter(kind, was, previous, bpp, |previous|)
  {
  }

  lemma PredictIs(row: seq<Byte>, previous: seq<Byte>, i: nat, bpp: nat)
    requires i <= |row| && i < |previous| && bpp > 0
    ensures var a, c := Before(row, i, bpp), Before(previous, i, bpp);
            Predict(1, row, previous, i, bpp) == a && Predict(2, row, previous, i, bpp) == previous[i] &&
            Predict(3, row, previous, i, bpp) == Average(a, previous[i]) &&
              Predict(4, row, previous, i, bpp) == Paeth(a, previous[i], c)
  {
  }

  /** The first bytes are the row's, the others still the line's. */
  ghost predicate Undone(kind: Byte, now: seq<Byte>, was: seq<Byte>, previous: seq<Byte>, bpp: nat, i: nat)
    requires |was| == |previous| && bpp > 0
  {
    |now| == |was| && i <= |was| && now == Unfilter(kind, was, previous, bpp, i) + was[i..]
  }

  lemma Undo(kind: Byte, now: seq<Byte>, was: seq<Byte>, previous: seq<Byte>, bpp: nat, i: nat)
    requires |was| == |previous| && bpp > 0 && i < |was| && Undone(kind, now, was, previous, bpp, i)
    ensures now[i] == was[i] &&
      Undone(kind, now[i := Wrapped(now[i], Predict(kind, now, previous, i, bpp))], was, previous, bpp, i + 1)
  {
    var row := Unfilter(kind, was, previous, bpp, i);
    assert now[..i] == row;
    PredictPrefix(kind, now, row, previous, i, bpp);
    assert was[i..] == [was[i]] + was[i + 1..];
  }

  /** Nothing is before a row's first pixel: its bytes are the line's. */
  lemma {:induction false} SubStart(was: seq<Byte>, previous: seq<Byte>, bpp: nat, n: nat)
    requires |was| == |previous| && bpp > 0 && n <= bpp && n <= |was|
    ensures Unfilter(1, was, previous, bpp, n) == was[..n] && was[..n] + was[n..] == was
  {
    if n > 0 { SubStart(was, previous, bpp, n - 1); }
  }

  lemma {:induction false} Unknown(kind: Byte, was: seq<Byte>, previous: seq<Byte>, bpp: nat, n: nat)
    requires |was| == |previous| && bpp > 0 && n <= |was| && !(1 <= kind <= 4)
    ensures Unfilter(kind, was, previous, bpp, n) == was[..n]
  {
    if n > 0 { Unknown(kind, was, previous, bpp, n - 1); }
  }
}
