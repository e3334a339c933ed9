/**
 Comparing two crops of one size: how far their pixels differ, and their structural similarity, its window
 sums taken from integral images.
 */
module Fidelity {
  import opened Sums
  import opened Ssim

  const WINDOW := 8
  const STRIDE := 4

  type Byte = b: nat | b < 256

  /** Three bytes a pixel: red, green and blue. */
  datatype Image = Image(width: nat, height: nat, data: seq<Byte>) {
    predicate Valid() { |data| == 3 * (width * height) }
  }

  // Where the windows are.

  /** The starts of a side's windows, with their length: the side's own where it is no longer than eight. */
  function Windows(length: nat): (seq<nat>, nat) {
    if length <= WINDOW then ([0], length)
    else (seq((length - WINDOW) / STRIDE + 1, i requires 0 <= i => STRIDE * i), WINDOW)
  }

  ghost predicate Covered(length: nat, x: int) {
    var (starts, size) := Windows(length);
    exists i :: 0 <= i < |starts| && starts[i] <= x < starts[i] + size
  }

  /** A side's windows stay in it, and cover it up to the last stride. */
  lemma WindowsCover(length: nat, x: int)
    requires 0 <= x < length
    ensures var (starts, size) := Windows(length);
            |starts| > 0 && size > 0 && forall i :: 0 <= i < |starts| ==> starts[i] + size <= length
    ensures Covered(length, x) <==> length <= WINDOW || x < WINDOW + STRIDE * ((length - WINDOW) / STRIDE)
  {
    var (starts, size) := Windows(length);
    if length <= WINDOW {
      assert starts[0] <= x < starts[0] + size;
    } else if x < WINDOW + STRIDE * ((length - WINDOW) / STRIDE) {
      var i := if x < WINDOW then 0 else (x - WINDOW) / STRIDE + 1;
      assert starts[i] <= x < starts[i] + size;
    }
  }

  /** The lengths whose windows reach every pixel. */
  predicate Whole(length: nat) { length <= WINDOW || length % STRIDE == 0 }

  lemma WholeCovered(length: nat)
    requires length > 0
    ensures Whole(length) <==> forall x :: 0 <= x < length ==> Covered(length, x)
    ensures !Whole(length) ==> !Covered(length, length - 1)
  {
    forall x | 0 <= x < length
      ensures Covered(length, x) <==> length <= WINDOW || x < WINDOW + STRIDE * ((length - WINDOW) / STRIDE)
    {
      WindowsCover(length, x);
    }
    if !Whole(length) {
      var last := length - 1;
      assert last >= WINDOW + STRIDE * ((length - WINDOW) / STRIDE);
      assert !Covered(length, last);
    }
  }

  // Luminance.

  function LumaAt(img: Image, i: int): real {
    if 0 <= i && 3 * i + 2 < |img.data|
    then 0.299 * img.data[3 * i] as real + 0.587 * img.data[3 * i + 1] as real + 0.114 * img.data[3 * i + 2] as real
    else 0.0
  }

  function Luma(img: Image): Field { (y, x) => LumaAt(img, y * img.width + x) }

  /** Grey is as bright as its byte, and of pure colours green is the brightest, then red. */
  lemma LumaOfGrey(img: Image, i: nat)
    requires 3 * i + 2 < |img.data|
    ensures var red, green, blue := img.data[3 * i], img.data[3 * i + 1], img.data[3 * i + 2];
            (red == green == blue ==> LumaAt(img, i) == red as real) &&
            (red == 255 && green == blue == 0 ==> LumaAt(img, i) == 76.245) &&
            (green == 255 && red == blue == 0 ==> LumaAt(img, i) == 149.685) &&
            (blue == 255 && red == green == 0 ==> LumaAt(img, i) == 29.07)
  {
  }

  lemma LumaLuminous(img: Image, box: Box)
    ensures Luminous(Luma(img), box)
  {
    forall i ensures LumaAt(img, i) >= 0.0 {
    }
  }

  // The pixels' differences.

  function Apart(a: Byte, b: Byte): nat { if a < b then b - a else a - b }

  function PixelTotal(a: Image, b: Image, i: nat): nat
    requires 3 * i + 2 < |a.data| && |a.data| == |b.data|
  {
    Apart(a.data[3 * i], b.data[3 * i]) + Apart(a.data[3 * i + 1], b.data[3 * i + 1]) +
      Apart(a.data[3 * i + 2], b.data[3 * i + 2])
  }

  function PixelLargest(a: Image, b: Image, i: nat): nat
    requires 3 * i + 2 < |a.data| && |a.data| == |b.data|
  {
    Max(Apart(a.data[3 * i], b.data[3 * i]),
      Max(Apart(a.data[3 * i + 1], b.data[3 * i + 1]), Apart(a.data[3 * i + 2], b.data[3 * i + 2])))
  }

  function Max(a: nat, b: nat): nat { if a < b then b else a }

  /** The sum of the channels' differences over the first n pixels. */
  function Total(a: Image, b: Image, n: nat): nat
    requires 3 * n <= |a.data| == |b.data|
  {
    if n == 0 then 0 else Total(a, b, n - 1) + PixelTotal(a, b, n - 1)
  }

  /** How many of the first n pixels differ by more than the tolerance. */
  function Over(a: Image, b: Image, tolerance: int, n: nat): nat
    requires 3 * n <= |a.data| == |b.data|
  {
    if n == 0 then 0 else Over(a, b, tolerance, n - 1) + if PixelLargest(a, b, n - 1) > tolerance then 1 else 0
  }

  function Largest(a: Image, b: Image, n: nat): nat
    requires 3 * n <= |a.data| == |b.data|
  {
    if n == 0 then 0 else Max(Largest(a, b, n - 1), PixelLargest(a, b, n - 1))
  }

  /** Nothing differs exactly when the total is 0, and when the largest difference is. */
  lemma {:induction false} NoDifference(a: Image, b: Image, n: nat)
    requires 3 * n <= |a.data| == |b.data|
    ensures Total(a, b, n) == 0 <==> a.data[..3 * n] == b.data[..3 * n]
    ensures Largest(a, b, n) == 0 <==> a.data[..3 * n] == b.data[..3 * n]
  {
    if n > 0 {
      NoDifference(a, b, n - 1);
      var k := 3 * (n - 1);
      assert a.data[..3 * n] == a.data[..k] + [a.data[k], a.data[k + 1], a.data[k + 2]];
      assert b.data[..3 * n] == b.data[..k] + [b.data[k], b.data[k + 1], b.data[k + 2]];
      assert PixelTotal(a, b, n - 1) == 0 <==>
        a.data[k] == b.data[k] && a.data[k + 1] == b.data[k + 1] && a.data[k + 2] == b.data[k + 2];
      assert PixelLargest(a, b, n - 1) == 0 <==> PixelTotal(a, b, n - 1) == 0;
      if a.data[..3 * n] == b.data[..3 * n] {
        assert a.data[..3 * n][..k] == a.data[..k] && b.data[..3 * n][..k] == b.data[..k];
        assert forall i :: k <= i < 3 * n ==> a.data[..3 * n][i] == a.data[i] && b.data[..3 * n][i] == b.data[i];
      }
    }
  }

  /** No pixel is over the tolerance exactly when the largest difference is within it. */
  lemma {:induction false} OverLargest(a: Image, b: Image, tolerance: nat, n: nat)
    requires 3 * n <= |a.data| == |b.data|
    ensures Over(a, b, tolerance, n) <= n
    ensures Over(a, b, tolerance, n) == 0 <==> Largest(a, b, n) <= tolerance
  {
    if n > 0 { OverLargest(a, b, tolerance, n - 1); }
  }

  // The same byte by byte.

  function BytesApart(a: seq<Byte>, b: seq<Byte>, n: nat): nat
    requires n <= |a| == |b|
  {
    if n == 0 then 0
    else BytesApart(a, b, n - 1) + if a[n - 1] > b[n - 1] then a[n - 1] - b[n - 1] else b[n - 1] - a[n - 1]
  }

  /** The total is how far the crops' bytes are apart, summed. */
  lemma {:induction false} TotalOfBytes(a: Image, b: Image, n: nat)
    requires 3 * n <= |a.data| == |b.data|
    ensures Total(a, b, n) == BytesApart(a.data, b.data, 3 * n)
  {
    if n > 0 {
      TotalOfBytes(a, b, n - 1);
      assert BytesApart(a.data, b.data, 3 * n - 1) ==
             BytesApart(a.data, b.data, 3 * n - 3) +
             Apart(a.data[3 * n - 3], b.data[3 * n - 3]) + Apart(a.data[3 * n - 2], b.data[3 * n - 2]);
    }
  }

  predicate ApartBy(a: Image, b: Image, k: int, d: nat)
    requires |a.data| == |b.data|
  {
    0 <= k < |a.data| && (a.data[k] == b.data[k] + d || b.data[k] == a.data[k] + d)
  }

  /** No byte is further apart than the largest difference, and one is as far. */
  lemma {:induction false} LargestOfBytes(a: Image, b: Image, n: nat)
    requires 3 * n <= |a.data| == |b.data|
    ensures forall k :: 0 <= k < 3 * n ==>
      a.data[k] <= b.data[k] + Largest(a, b, n) && b.data[k] <= a.data[k] + Largest(a, b, n)
    ensures n > 0 ==> exists k :: 0 <= k < 3 * n && ApartBy(a, b, k, Largest(a, b, n))
  {
    if n > 0 {
      var most := Largest(a, b, n - 1);
      LargestOfBytes(a, b, n - 1);
      var i := 3 * (n - 1);
      assert ApartBy(a, b, i, Apart(a.data[i], b.data[i]));
      assert ApartBy(a, b, i + 1, Apart(a.data[i + 1], b.data[i + 1]));
      assert ApartBy(a, b, i + 2, Apart(a.data[i + 2], b.data[i + 2]));
      assert n == 1 ==> most == 0;
    }
  }

  predicate Differs(a: Image, b: Image, tolerance: int, i: int)
    requires |a.data| == |b.data|
  {
    exists k :: 3 * i <= k < 3 * i + 3 && 0 <= k < |a.data| &&
      (a.data[k] - b.data[k] > tolerance || b.data[k] - a.data[k] > tolerance)
  }

  ghost function Differing(a: Image, b: Image, tolerance: int, n: nat): set<int>
    requires |a.data| == |b.data|
  {
    set i | 0 <= i < n && Differs(a, b, tolerance, i)
  }

  /** The pixels over the tolerance are those with a channel further apart than it. */
  lemma {:induction false} OverOfPixels(a: Image, b: Image, tolerance: int, n: nat)
    requires 3 * n <= |a.data| == |b.data|
    ensures Over(a, b, tolerance, n) == |Differing(a, b, tolerance, n)|
  {
    hide Differs, PixelLargest;
    if n == 0 {
      assert Differing(a, b, tolerance, 0) == {};
    } else {
      OverOfPixels(a, b, tolerance, n - 1);
      PixelDiffers(a, b, tolerance, n - 1);
      assert Differing(a, b, tolerance, n) ==
             Differing(a, b, tolerance, n - 1) + if Differs(a, b, tolerance, n - 1) then {n - 1} else {};
    }
  }

  lemma PixelDiffers(a: Image, b: Image, tolerance: int, i: nat)
    requires 3 * i + 2 < |a.data| == |b.data|
    ensures PixelLargest(a, b, i) > tolerance <==> Differs(a, b, tolerance, i)
  {
    if PixelLargest(a, b, i) > tolerance {
      if Apart(a.data[3 * i], b.data[3 * i]) > tolerance {
        assert Differs(a, b, tolerance, i);
      } else if Apart(a.data[3 * i + 1], b.data[3 * i + 1]) > tolerance {
        var k := 3 * i + 1;
        assert a.data[k] - b.data[k] > tolerance || b.data[k] - a.data[k] > tolerance;
      } else {
        var k := 3 * i + 2;
        assert a.data[k] - b.data[k] > tolerance || b.data[k] - a.data[k] > tolerance;
      }
    }
  }

  /** The loop over the pixels: the differences, and both crops' luminances. */
  method Differences(a: Image, b: Image, tolerance: int)
    returns (total: nat, over: nat, largest: nat, lumaA: array<real>, lumaB: array<real>)
    requires a.Valid() && b.Valid() && a.width == b.width && a.height == b.height
    ensures var n := a.width * a.height;
            total == Total(a, b, n) && over == Over(a, b, tolerance, n) && largest == Largest(a, b, n)
    ensures fresh(lumaA) && fresh(lumaB) && lumaA.Length == a.width * a.height && Lumas(lumaA, lumaB, a, b)
  {
    var n := a.width * a.height;
    total, over, largest := 0, 0, 0;
    lumaA, lumaB := new real[n], new real[n];
    for i := 0 to n
      invariant total == Total(a, b, i) && over == Over(a, b, tolerance, i) && largest == Largest(a, b, i)
      invariant forall k :: 0 <= k < i ==> lumaA[k] == LumaAt(a, k) && lumaB[k] == LumaAt(b, k)
    {
      var d := PixelLargest(a, b, i);
      total := total + PixelTotal(a, b, i);
      if d > tolerance { over := over + 1; }
      if d > largest { largest := d; }
      lumaA[i] := 0.299 * a.data[3 * i] as real + 0.587 * a.data[3 * i + 1] as real + 0.114 * a.data[3 * i + 2] as real;
      lumaB[i] := 0.299 * b.data[3 * i] as real + 0.587 * b.data[3 * i + 1] as real + 0.114 * b.data[3 * i + 2] as real;
    }
  }

  // The integral images.

  /** What an integral image of rows of `stride` entries holds at k. */
  function Entry(f: Field, stride: nat, k: nat): real
    requires stride > 0
  {
    Table(f, k / stride, k % stride)
  }

  lemma EntryAt(f: Field, stride: nat, y: nat, x: nat)
    requires x < stride
    ensures Entry(f, stride, y * stride + x) == Table(f, y, x)
  {
    DivMod(stride, y, x);
  }

  lemma DivMod(stride: nat, y: nat, x: nat)
    requires x < stride
    ensures (y * stride + x) / stride == y && (y * stride + x) % stride == x
  {
    var k := y * stride + x;
    assert k == (k / stride) * stride + k % stride;
    OneQuotient(stride, y, x, k / stride, k % stride);
  }

  lemma OneQuotient(stride: nat, q: int, r: nat, q': int, r': nat)
    requires r < stride && r' < stride && q * stride + r == q' * stride + r'
    ensures q == q' && r == r'
  {
    if q < q' { AtLeastOnce(stride, q' - q); }
    if q' < q { AtLeastOnce(stride, q - q'); }
  }

  lemma AtLeastOnce(stride: nat, d: int)
    requires d >= 1
    ensures d * stride >= stride
  {
  }

  lemma {:induction false} NothingLeft(f: Field, y: int)
    ensures Table(f, y, 0) == 0.0
    decreases y
  {
    if y > 0 { NothingLeft(f, y - 1); }
  }

  /** An integral image filled up to an entry, zero after. */
  ghost predicate Filled(s: array<real>, f: Field, stride: nat, upto: int)
    requires stride > 0
    reads s
  {
    (forall k :: 0 <= k < upto && k < s.Length ==> s[k] == Entry(f, stride, k)) &&
    (forall k :: upto <= k < s.Length && 0 <= k ==> s[k] == 0.0)
  }

  /** One entry, of row y + 1 and column x + 1: the one above it and its row's sum so far. */
  method Put(s: array<real>, j: nat, k: nat, row: real, ghost stride: nat, ghost y: nat, ghost x: nat, ghost f: Field)
    requires x + 1 < stride && j == y * stride + x + 1 && k == (y + 1) * stride + x + 1 && j < k < s.Length
    requires Filled(s, f, stride, k) && row == RowSum(f, y, 0, x + 1)
    modifies s
    ensures Filled(s, f, stride, k + 1)
  {
    EntryAt(f, stride, y + 1, x + 1);
    EntryAt(f, stride, y, x + 1);
    s[k] := s[j] + row;
  }

  /** The column left of a row is zero, as is an image still empty. */
  lemma BuiltColumn(s: array<real>, f: Field, stride: nat, y: nat)
    requires stride > 0 && Filled(s, f, stride, y * stride)
    ensures Filled(s, f, stride, y * stride + 1)
  {
    EntryAt(f, stride, y, 0);
    NothingLeft(f, y);
  }

  lemma BuiltTop(s: array<real>, f: Field, stride: nat)
    requires stride > 0 && forall k :: 0 <= k < s.Length ==> s[k] == 0.0
    ensures Filled(s, f, stride, stride)
  {
    forall k | 0 <= k < stride && k < s.Length ensures s[k] == Entry(f, stride, k) {
      EntryAt(f, stride, 0, k);
    }
  }

  /** The five integral images of two crops' luminances. */
  datatype Integrals = Integrals(sx: array<real>, sy: array<real>, sxx: array<real>, syy: array<real>,
    sxy: array<real>) {
    ghost predicate Apart() {
      sx != sy && sx != sxx && sx != syy && sx != sxy && sy != sxx && sy != syy && sy != sxy && sxx != syy &&
        sxx != sxy && syy != sxy
    }

    ghost predicate Sized(n: nat) {
      sx.Length == n && sy.Length == n && sxx.Length == n && syy.Length == n && sxy.Length == n
    }

    ghost predicate Built(p: Field, q: Field, stride: nat, upto: int)
      requires stride > 0
      reads sx, sy, sxx, syy, sxy
    {
      Filled(sx, p, stride, upto) && Filled(sy, q, stride, upto) && Filled(sxx, Product(p, p), stride, upto) &&
      Filled(syy, Product(q, q), stride, upto) && Filled(sxy, Product(p, q), stride, upto)
    }
  }

  lemma Within(w: nat, h: nat, y: nat, x: nat)
    requires y < h && x < w
    ensures 0 <= y * w + x < w * h
  {
    assert (h - 1 - y) * w >= 0;
    assert w * h == (h - 1 - y) * w + y * w + w;
  }

  /** The loops that fill the five integral images from the two crops' luminances. */
  method Integrate(w: nat, h: nat, lumaA: array<real>, lumaB: array<real>, ghost a: Image, ghost b: Image)
      returns (s: Integrals)
    requires lumaA.Length == w * h && Lumas(lumaA, lumaB, a, b) && a.width == w && b.width == w
    ensures Ready(s, w + 1, h + 1, a, b)
  {
    ghost var p, q := Luma(a), Luma(b);
    s := NewIntegrals((w + 1) * (h + 1), w + 1, p, q);
    var row, above, base := w + 1, 0, 0;
    for y := 0 to h
      invariant row == (y + 1) * (w + 1) && above == y * (w + 1) && base == y * w
      invariant s.Built(p, q, w + 1, row) && Lumas(lumaA, lumaB, a, b)
    {
      RowFits(w, h, y);
      IntegrateRow(y, w, w + 1, row, above, base, lumaA, lumaB, s, a, b);
      row, above, base := row + (w + 1), row, base + w;
    }
    RowsEnd(w, h);
  }

  method NewIntegrals(n: nat, ghost stride: nat, ghost p: Field, ghost q: Field) returns (s: Integrals)
    requires stride > 0
    ensures s.Sized(n) && s.Apart() && s.Built(p, q, stride, stride)
    ensures fresh(s.sx) && fresh(s.sy) && fresh(s.sxx) && fresh(s.syy) && fresh(s.sxy)
  {
    var sx, sy, sxx := new real[n](_ => 0.0), new real[n](_ => 0.0), new real[n](_ => 0.0);
    var syy, sxy := new real[n](_ => 0.0), new real[n](_ => 0.0);
    s := Integrals(sx, sy, sxx, syy, sxy);
    BuiltTop(sx, p, stride);
    BuiltTop(sy, q, stride);
    BuiltTop(sxx, Product(p, p), stride);
    BuiltTop(syy, Product(q, q), stride);
    BuiltTop(sxy, Product(p, q), stride);
  }

  lemma RowsEnd(w: nat, h: nat)
    ensures (h + 1) * (w + 1) == (w + 1) * (h + 1)
  {
  }

  lemma RowFits(w: nat, h: nat, y: nat)
    requires y < h
    ensures y * w + w <= w * h
    ensures (y + 1) * (w + 1) + (w + 1) <= (w + 1) * (h + 1)
    ensures (y + 1) * (w + 1) + (w + 1) == (y + 1 + 1) * (w + 1) && y * w + w == (y + 1) * w
  {
    assert (h - 1 - y) * w >= 0 && (h - 1 - y) * (w + 1) >= 0;
    assert w * h == (h - 1 - y) * w + y * w + w;
    assert (w + 1) * (h + 1) == (h - 1 - y) * (w + 1) + (y + 1) * (w + 1) + (w + 1);
  }

  ghost predicate Lumas(lumaA: array<real>, lumaB: array<real>, a: Image, b: Image)
    reads lumaA, lumaB
  {
    lumaA.Length == lumaB.Length &&
      forall i :: 0 <= i < lumaA.Length ==> lumaA[i] == LumaAt(a, i) && lumaB[i] == LumaAt(b, i)
  }

  method IntegrateRow(
    y: nat, w: nat, stride: nat, row: nat, above: nat, base: nat, lumaA: array<real>, lumaB: array<real>, s: Integrals,
    ghost a: Image, ghost b: Image)
    requires a.width == w && b.width == w && Lumas(lumaA, lumaB, a, b) && base == y * w && base + w <= lumaA.Length
    requires stride == w + 1 && row == (y + 1) * stride && above == y * stride && above < row
    requires row + stride <= s.sx.Length && s.Sized(s.sx.Length) && s.Apart()
    requires lumaA !in {s.sx, s.sy, s.sxx, s.syy, s.sxy} && lumaB !in {s.sx, s.sy, s.sxx, s.syy, s.sxy}
    requires s.Built(Luma(a), Luma(b), stride, row)
    modifies s.sx, s.sy, s.sxx, s.syy, s.sxy
    ensures s.Built(Luma(a), Luma(b), stride, row + stride)
  {
    ghost var p, q := Luma(a), Luma(b);
    var rx, ry, rxx, ryy, rxy := 0.0, 0.0, 0.0, 0.0, 0.0;
    ColumnsBuilt(s, p, q, stride, y + 1);
    for x := 0 to w
      invariant s.Built(p, q, stride, row + x + 1) && Lumas(lumaA, lumaB, a, b)
      invariant rx == RowSum(p, y, 0, x) && ry == RowSum(q, y, 0, x)
      invariant rxx == RowSum(Product(p, p), y, 0, x) && ryy == RowSum(Product(q, q), y, 0, x)
      invariant rxy == RowSum(Product(p, q), y, 0, x)
    {
      var l, m := lumaA[base + x], lumaB[base + x];
      RowsGrow(a, b, y, x, base, l, m);
      rx, ry, rxx, ryy, rxy := rx + l, ry + m, rxx + l * l, ryy + m * m, rxy + l * m;
      PutAll(s, above + x + 1, row + x + 1, rx, ry, rxx, ryy, rxy, stride, y, x, p, q);
    }
  }

  lemma RowsGrow(a: Image, b: Image, y: nat, x: nat, base: nat, l: real, m: real)
    requires a.width == b.width && base == y * a.width && l == LumaAt(a, base + x) && m == LumaAt(b, base + x)
    ensures var p, q := Luma(a), Luma(b);
            RowSum(p, y, 0, x + 1) == RowSum(p, y, 0, x) + l && RowSum(q, y, 0, x + 1) == RowSum(q, y, 0, x) + m &&
            RowSum(Product(p, p), y, 0, x + 1) == RowSum(Product(p, p), y, 0, x) + l * l &&
            RowSum(Product(q, q), y, 0, x + 1) == RowSum(Product(q, q), y, 0, x) + m * m &&
            RowSum(Product(p, q), y, 0, x + 1) == RowSum(Product(p, q), y, 0, x) + l * m
  {
    assert Luma(a)(y, x) == l && Luma(b)(y, x) == m;
  }

  lemma ColumnsBuilt(s: Integrals, p: Field, q: Field, stride: nat, y: nat)
    requires stride > 0 && s.Built(p, q, stride, y * stride)
    ensures s.Built(p, q, stride, y * stride + 1)
  {
    BuiltColumn(s.sx, p, stride, y);
    BuiltColumn(s.sy, q, stride, y);
    BuiltColumn(s.sxx, Product(p, p), stride, y);
    BuiltColumn(s.syy, Product(q, q), stride, y);
    BuiltColumn(s.sxy, Product(p, q), stride, y);
  }

  method PutAll(
    s: Integrals, j: nat, k: nat, rx: real, ry: real, rxx: real, ryy: real, rxy: real, ghost stride: nat, ghost y: nat,
    ghost x: nat, ghost p: Field, ghost q: Field)
    requires x + 1 < stride && j == y * stride + x + 1 && k == (y + 1) * stride + x + 1 && j < k
    requires k < s.sx.Length && s.Sized(s.sx.Length) && s.Apart() && s.Built(p, q, stride, k)
    requires rx == RowSum(p, y, 0, x + 1) && ry == RowSum(q, y, 0, x + 1)
    requires rxx == RowSum(Product(p, p), y, 0, x + 1) && ryy == RowSum(Product(q, q), y, 0, x + 1)
    requires rxy == RowSum(Product(p, q), y, 0, x + 1)
    modifies s.sx, s.sy, s.sxx, s.syy, s.sxy
    ensures s.Built(p, q, stride, k + 1)
  {
    Put(s.sx, j, k, rx, stride, y, x, p);
    Put(s.sy, j, k, ry, stride, y, x, q);
    Put(s.sxx, j, k, rxx, stride, y, x, Product(p, p));
    Put(s.syy, j, k, ryy, stride, y, x, Product(q, q));
    Put(s.sxy, j, k, rxy, stride, y, x, Product(p, q));
  }

  // The windows' similarities.

  /** The boxes of one row of windows, and of the first rows of them. */
  function RowBoxes(y0: nat, wh: nat, xs: seq<nat>, ww: nat): seq<Box> {
    seq(|xs|, i requires 0 <= i < |xs| => Box(y0, y0 + wh, xs[i], xs[i] + ww))
  }

  function BoxRows(ys: seq<nat>, wh: nat, xs: seq<nat>, ww: nat): seq<Box> {
    if ys == [] then [] else BoxRows(ys[..|ys| - 1], wh, xs, ww) + RowBoxes(ys[|ys| - 1], wh, xs, ww)
  }

  /** Every window of crops of a size. */
  function Boxes(w: nat, h: nat): seq<Box> {
    var (xs, ww) := Windows(w);
    var (ys, wh) := Windows(h);
    BoxRows(ys, wh, xs, ww)
  }

  /** A window's similarity, by its box. */
  function SsimOf(a: Image, b: Image): Box -> real {
    (box: Box) =>
      if !box.Valid() then 0.0
      else
        LumaLuminous(a, box);
        LumaLuminous(b, box);
        WindowSsim(Luma(a), Luma(b), box)
  }

  ghost predicate Judges(f: Box -> real, a: Image, b: Image) {
    forall box: Box {:trigger Luminous(Luma(a), box)} ::
      box.Valid() && Luminous(Luma(a), box) && Luminous(Luma(b), box) ==> f(box) == WindowSsim(Luma(a), Luma(b), box)
  }

  function Similarities(f: Box -> real, boxes: seq<Box>): (values: seq<real>)
    ensures |values| == |boxes|
  {
    seq(|boxes|, i requires 0 <= i < |boxes| => f(boxes[i]))
  }

  function SumOf(values: seq<real>): real {
    if values == [] then 0.0 else SumOf(values[..|values| - 1]) + values[|values| - 1]
  }

  /** The four entries of an integral image a window's sum comes from. */
  method BoxOf(s: array<real>, y0: nat, y1: nat, x0: nat, x1: nat, stride: nat, rows: nat, ghost f: Field)
      returns (sum: real)
    requires y0 <= y1 < rows && x0 <= x1 < stride && s.Length == stride * rows && Filled(s, f, stride, stride * rows)
    ensures sum == BoxSum(f, y0, y1, x0, x1)
  {
    Within(stride, rows, y1, x1);
    Within(stride, rows, y0, x1);
    Within(stride, rows, y1, x0);
    Within(stride, rows, y0, x0);
    EntryAt(f, stride, y1, x1);
    EntryAt(f, stride, y0, x1);
    EntryAt(f, stride, y1, x0);
    EntryAt(f, stride, y0, x0);
    BoxFromTable(f, y0, y1, x0, x1);
    sum := s[y1 * stride + x1] - s[y0 * stride + x1] - s[y1 * stride + x0] + s[y0 * stride + x0];
  }

  /** Five integral images filled whole. */
  ghost predicate Ready(s: Integrals, stride: nat, rows: nat, a: Image, b: Image)
    reads s.sx, s.sy, s.sxx, s.syy, s.sxy
  {
    stride > 0 && s.Sized(stride * rows) && s.Built(Luma(a), Luma(b), stride, stride * rows)
  }

  /** One window's similarity from the five integral images. */
  method WindowOf(s: Integrals, box: Box, stride: nat, rows: nat, ghost a: Image, ghost b: Image, ghost f: Box -> real)
    returns (value: real)
    requires box.Valid() && 0 <= box.y0 && box.y1 < rows && 0 <= box.x0 && box.x1 < stride
    requires Ready(s, stride, rows, a, b) && Judges(f, a, b)
    ensures value == f(box)
  {
    ghost var p, q := Luma(a), Luma(b);
    LumaLuminous(a, box);
    LumaLuminous(b, box);
    var x := BoxOf(s.sx, box.y0, box.y1, box.x0, box.x1, stride, rows, p);
    var y := BoxOf(s.sy, box.y0, box.y1, box.x0, box.x1, stride, rows, q);
    var xx := BoxOf(s.sxx, box.y0, box.y1, box.x0, box.x1, stride, rows, Product(p, p));
    var yy := BoxOf(s.syy, box.y0, box.y1, box.x0, box.x1, stride, rows, Product(q, q));
    var xy := BoxOf(s.sxy, box.y0, box.y1, box.x0, box.x1, stride, rows, Product(p, q));
    WindowSimilarity(p, q, box);
    value := SsimFromSums(box.Pixels(), x, y, xx, yy, xy);
  }

  datatype Comparison = Comparison(mae: real, over: real, ssim: real, largest: nat)

  /** What `compare` promises of two crops. */
  function Compared(a: Image, b: Image, tolerance: int): Comparison
    requires a.Valid() && b.Valid() && a.width == b.width && a.height == b.height && a.width > 0 && a.height > 0
  {
    var n := a.width * a.height;
    AtLeastOnce(a.width, a.height);
    BoxesFit(a.width, a.height);
    Judged(Total(a, b, n), Over(a, b, tolerance, n), Largest(a, b, n), n,
      Similarities(SsimOf(a, b), Boxes(a.width, a.height)))
  }

  /** The figures of crops of n pixels, from their totals and their windows' similarities. */
  function Judged(total: nat, over: nat, largest: nat, n: nat, values: seq<real>): Comparison
    requires n > 0 && |values| > 0
  {
    Comparison(total as real / (3 * n) as real, 100.0 * over as real / n as real, SumOf(values) / |values| as real,
      largest)
  }

  /** Whether a window holds a pixel. */
  ghost predicate Reached(boxes: seq<Box>, y: int, x: int) {
    exists i :: 0 <= i < |boxes| && boxes[i].Has(y, x)
  }

  lemma BoxesFit(w: nat, h: nat)
    requires w > 0 && h > 0
    ensures |Boxes(w, h)| > 0
    ensures forall i :: 0 <= i < |Boxes(w, h)| ==>
      var box := Boxes(w, h)[i]; box.Valid() && 0 <= box.y0 && box.y1 <= h && 0 <= box.x0 && box.x1 <= w
  {
    var (xs, ww) := Windows(w);
    var (ys, wh) := Windows(h);
    WindowsCover(w, 0);
    WindowsCover(h, 0);
    RowsFit(ys, wh, xs, ww, w, h);
  }

  /** A window holds a pixel exactly when both its row and its column are covered. */
  lemma BoxesReach(w: nat, h: nat, y: int, x: int)
    ensures Reached(Boxes(w, h), y, x) <==> Covered(h, y) && Covered(w, x)
  {
    var (xs, ww) := Windows(w);
    var (ys, wh) := Windows(h);
    RowsHave(ys, wh, xs, ww, y, x);
  }

  lemma {:induction false} RowsFit(ys: seq<nat>, wh: nat, xs: seq<nat>, ww: nat, w: nat, h: nat)
    requires wh > 0 && ww > 0 && |xs| > 0
    requires forall i :: 0 <= i < |ys| ==> ys[i] + wh <= h
    requires forall i :: 0 <= i < |xs| ==> xs[i] + ww <= w
    ensures ys != [] ==> |BoxRows(ys, wh, xs, ww)| > 0
    ensures forall i :: 0 <= i < |BoxRows(ys, wh, xs, ww)| ==>
      var box := BoxRows(ys, wh, xs, ww)[i]; box.Valid() && 0 <= box.y0 && box.y1 <= h && 0 <= box.x0 && box.x1 <= w
  {
    if ys != [] { RowsFit(ys[..|ys| - 1], wh, xs, ww, w, h); }
  }

  lemma {:induction false} RowsHave(ys: seq<nat>, wh: nat, xs: seq<nat>, ww: nat, y: int, x: int)
    ensures Reached(BoxRows(ys, wh, xs, ww), y, x) <==>
            (exists i :: 0 <= i < |ys| && ys[i] <= y < ys[i] + wh) &&
              (exists i :: 0 <= i < |xs| && xs[i] <= x < xs[i] + ww)
  {
    if ys != [] {
      var last := |ys| - 1;
      var rest, row := BoxRows(ys[..last], wh, xs, ww), RowBoxes(ys[last], wh, xs, ww);
      RowsHave(ys[..last], wh, xs, ww, y, x);
      assert BoxRows(ys, wh, xs, ww) == rest + row;
      if i :| 0 <= i < |xs| && xs[i] <= x < xs[i] + ww && ys[last] <= y < ys[last] + wh {
        assert (rest + row)[|rest| + i] == row[i];
      }
      if i :| 0 <= i < |rest| && rest[i].Has(y, x) {
        assert (rest + row)[i] == rest[i];
      }
      if i :| 0 <= i < |rest + row| && (rest + row)[i].Has(y, x) {
        if i >= |rest| { assert row[i - |rest|].Has(y, x); }
      }
    }
  }

  /** compare, in plain Python: what it promises, its window sums taken from the integral images. */
  method Compare(a: Image, b: Image, tolerance: int) returns (r: Comparison)
    requires a.Valid() && b.Valid() && a.width == b.width && a.height == b.height && a.width > 0 && a.height > 0
    ensures r == Compared(a, b, tolerance)
  {
    var w, h := a.width, a.height;
    var total, over, largest, lumaA, lumaB := Differences(a, b, tolerance);
    var s := Integrate(w, h, lumaA, lumaB, a, b);
    ghost var f := SsimOf(a, b);
    assert Judges(f, a, b);
    var values := WindowValues(s, w, h, a, b, f);
    BoxesFit(w, h);
    AtLeastOnce(w, h);
    r := Figures(total, over, largest, w * h, values);
  }

  method Figures(total: nat, over: nat, largest: nat, n: nat, values: seq<real>) returns (r: Comparison)
    requires n > 0 && |values| > 0
    ensures r == Judged(total, over, largest, n, values)
  {
    var sum := Sum(values);
    r := Comparison(total as real / (3 * n) as real, 100.0 * over as real / n as real, sum / |values| as real, largest);
  }

  /** The loops over the windows, row by row. */
  method WindowValues(s: Integrals, w: nat, h: nat, ghost a: Image, ghost b: Image, ghost f: Box -> real)
      returns (values: seq<real>)
    requires w > 0 && h > 0 && Ready(s, w + 1, h + 1, a, b) && Judges(f, a, b)
    ensures values == Similarities(f, Boxes(w, h))
  {
    var (xs, ww) := Windows(w);
    var (ys, wh) := Windows(h);
    WindowsCover(w, 0);
    WindowsCover(h, 0);
    ghost var boxes: seq<Box> := [];
    values := [];
    for j := 0 to |ys|
      invariant boxes == BoxRows(ys[..j], wh, xs, ww) && values == Similarities(f, boxes)
    {
      assert ys[..j + 1][..j] == ys[..j];
      values := RowValues(s, ys[j], wh, xs, ww, w + 1, h + 1, values, boxes, a, b, f);
      boxes := boxes + RowBoxes(ys[j], wh, xs, ww);
    }
    assert ys[..|ys|] == ys;
  }

  method RowValues(
    s: Integrals, y0: nat, wh: nat, xs: seq<nat>, ww: nat, stride: nat, rows: nat, before: seq<real>,
    ghost boxes: seq<Box>, ghost a: Image, ghost b: Image, ghost f: Box -> real)
    returns (values: seq<real>)
    requires wh > 0 && ww > 0 && y0 + wh < rows && forall i :: 0 <= i < |xs| ==> xs[i] + ww < stride
    requires Ready(s, stride, rows, a, b) && Judges(f, a, b) && before == Similarities(f, boxes)
    ensures values == Similarities(f, boxes + RowBoxes(y0, wh, xs, ww))
  {
    ghost var row := RowBoxes(y0, wh, xs, ww);
    ghost var done := boxes;
    values := before;
    for i := 0 to |xs|
      invariant done == boxes + row[..i] && values == Similarities(f, done)
    {
      var value := WindowOf(s, Box(y0, y0 + wh, xs[i], xs[i] + ww), stride, rows, a, b, f);
      assert row[..i + 1] == row[..i] + [row[i]];
      values, done := values + [value], done + [row[i]];
    }
    assert row[..|xs|] == row;
  }

  predicate AllValid(boxes: seq<Box>) { forall i :: 0 <= i < |boxes| ==> boxes[i].Valid() }

  method Sum(values: seq<real>) returns (sum: real)
    ensures sum == SumOf(values)
  {
    sum := 0.0;
    for i := 0 to |values|
      invariant sum == SumOf(values[..i])
    {
      assert values[..i + 1][..i] == values[..i];
      sum := sum + values[i];
    }
    assert values[..|values|] == values;
  }

  // What the mean similarity says of the crops.

  lemma {:induction false} ValuesBounded(values: seq<real>)
    requires forall i :: 0 <= i < |values| ==> -1.0 < values[i] <= 1.0
    ensures -(|values| as real) <= SumOf(values) <= |values| as real
    ensures values != [] ==> -(|values| as real) < SumOf(values)
    ensures SumOf(values) == |values| as real <==> forall i :: 0 <= i < |values| ==> values[i] == 1.0
  {
    if values != [] {
      ValuesBounded(values[..|values| - 1]);
    }
  }

  lemma SimilaritiesBounded(a: Image, b: Image, boxes: seq<Box>)
    requires AllValid(boxes)
    ensures var values := Similarities(SsimOf(a, b), boxes);
            (forall i :: 0 <= i < |values| ==> -1.0 < values[i] <= 1.0) &&
            (forall i :: 0 <= i < |values| ==> (values[i] == 1.0 <==> Alike(Luma(a), Luma(b), boxes[i])))
  {
    forall i | 0 <= i < |boxes|
      ensures -1.0 < SsimOf(a, b)(boxes[i]) <= 1.0 &&
        (SsimOf(a, b)(boxes[i]) == 1.0 <==> Alike(Luma(a), Luma(b), boxes[i]))
    {
      LumaLuminous(a, boxes[i]);
      LumaLuminous(b, boxes[i]);
      SsimBounds(Luma(a), Luma(b), boxes[i]);
    }
  }

  /**
   The crops' mean similarity lies in (-1, 1], and is 1 exactly when their luminances agree wherever a window reaches.
   */
  lemma MeanSimilarity(a: Image, b: Image, tolerance: int)
    requires a.Valid() && b.Valid() && a.width == b.width && a.height == b.height && a.width > 0 && a.height > 0
    ensures -1.0 < Compared(a, b, tolerance).ssim <= 1.0
    ensures Compared(a, b, tolerance).ssim == 1.0 <==>
      forall y, x :: 0 <= y < a.height && 0 <= x < a.width && Covered(a.height, y) && Covered(a.width, x) ==>
        Luma(a)(y, x) == Luma(b)(y, x)
  {
    var boxes := Boxes(a.width, a.height);
    BoxesFit(a.width, a.height);
    var values := Similarities(SsimOf(a, b), boxes);
    SimilaritiesBounded(a, b, boxes);
    ValuesBounded(values);
    Ratio(SumOf(values), |values| as real);
    MeanOf(a, b, tolerance, values);
    CoveredAlike(a, b);
  }

  lemma {:induction false} MeanOf(a: Image, b: Image, tolerance: int, values: seq<real>)
    requires a.Valid() && b.Valid() && a.width == b.width && a.height == b.height && a.width > 0 && a.height > 0
    requires values == Similarities(SsimOf(a, b), Boxes(a.width, a.height))
    ensures |values| > 0 && Compared(a, b, tolerance).ssim == Ssim.Over(SumOf(values), |values| as real)
  {
    BoxesFit(a.width, a.height);
  }

  lemma CoveredAlike(a: Image, b: Image)
    requires a.Valid() && b.Valid() && a.width == b.width && a.height == b.height && a.width > 0 && a.height > 0
    ensures (forall i ::
      0 <= i < |Boxes(a.width, a.height)| ==> Alike(Luma(a), Luma(b), Boxes(a.width, a.height)[i])) <==>
      forall y, x :: 0 <= y < a.height && 0 <= x < a.width && Covered(a.height, y) && Covered(a.width, x) ==>
        Luma(a)(y, x) == Luma(b)(y, x)
  {
    var boxes := Boxes(a.width, a.height);
    BoxesFit(a.width, a.height);
    forall y, x ensures Reached(boxes, y, x) <==> Covered(a.height, y) && Covered(a.width, x) {
      BoxesReach(a.width, a.height, y, x);
    }
    if forall i :: 0 <= i < |boxes| ==> Alike(Luma(a), Luma(b), boxes[i]) {
      forall y, x | Covered(a.height, y) && Covered(a.width, x) ensures Luma(a)(y, x) == Luma(b)(y, x) {
        var i :| 0 <= i < |boxes| && boxes[i].Has(y, x);
        assert Alike(Luma(a), Luma(b), boxes[i]);
      }
    }
    if forall y, x ::
      0 <= y < a.height && 0 <= x < a.width && Covered(a.height, y) && Covered(a.width, x) ==>
      Luma(a)(y, x) == Luma(b)(y, x) {
      forall i, y, x | 0 <= i < |boxes| && boxes[i].Has(y, x) ensures Luma(a)(y, x) == Luma(b)(y, x) {
        assert Reached(boxes, y, x);
      }
    }
  }

  // A size is judged whole exactly when its sides' windows reach every pixel.

  /** Whether a similarity of 1 means the same luminance at every pixel, for crops of a size. */
  ghost predicate OneMeansAlike(w: nat, h: nat)
    requires w > 0 && h > 0
  {
    forall a: Image, b: Image ::
      a.Valid() && b.Valid() && a.width == b.width == w && a.height == b.height == h &&
        Compared(a, b, 0).ssim == 1.0 ==>
        forall y, x :: 0 <= y < h && 0 <= x < w ==> Luma(a)(y, x) == Luma(b)(y, x)
  }

  function Black(w: nat, h: nat): Image { Image(w, h, seq(3 * (w * h), i => 0)) }

  /** Black but for its last pixel. */
  function Speck(w: nat, h: nat): Image
    requires w > 0 && h > 0
  {
    AtLeastOnce(w, h);
    Image(w, h, Black(w, h).data[3 * (w * h) - 1 := 255])
  }

  lemma OneMeansAlikeExactly(w: nat, h: nat)
    requires w > 0 && h > 0
    ensures OneMeansAlike(w, h) <==> Whole(w) && Whole(h)
  {
    WholeCovered(w);
    WholeCovered(h);
    if Whole(w) && Whole(h) {
      forall a: Image, b: Image |
        a.Valid() && b.Valid() && a.width == b.width == w && a.height == b.height == h && Compared(a, b, 0).ssim == 1.0
        ensures forall y, x :: 0 <= y < h && 0 <= x < w ==> Luma(a)(y, x) == Luma(b)(y, x)
      {
        MeanSimilarity(a, b, 0);
      }
    } else {
      SpeckUnseen(w, h);
    }
  }

  lemma SpeckUnseen(w: nat, h: nat)
    requires w > 0 && h > 0 && !(Covered(w, w - 1) && Covered(h, h - 1))
    ensures !OneMeansAlike(w, h)
  {
    var a, b := Black(w, h), Speck(w, h);
    MeanSimilarity(a, b, 0);
    forall y, x | 0 <= y < h && 0 <= x < w ensures Luma(a)(y, x) == Luma(b)(y, x) <==> !(y == h - 1 && x == w - 1) {
      SpeckLuma(w, h, y, x);
    }
    assert Luma(a)(h - 1, w - 1) != Luma(b)(h - 1, w - 1);
  }

  lemma SpeckLuma(w: nat, h: nat, y: nat, x: nat)
    requires y < h && x < w
    ensures Luma(Black(w, h))(y, x) == Luma(Speck(w, h))(y, x) <==> !(y == h - 1 && x == w - 1)
  {
    Within(w, h, y, x);
    assert (h - 1) * w + (w - 1) == w * h - 1;
    if y * w + x == w * h - 1 {
      OneQuotient(w, y, x, h - 1, w - 1);
    }
    SpeckAt(w, h, y * w + x);
  }

  lemma SpeckAt(w: nat, h: nat, i: nat)
    requires w > 0 && h > 0 && i < w * h
    ensures LumaAt(Black(w, h), i) == 0.0
    ensures LumaAt(Speck(w, h), i) == if i == w * h - 1 then 0.114 * 255.0 else 0.0
  {
    AtLeastOnce(w, h);
  }
}
