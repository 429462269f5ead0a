/** The measured edge filter and its reference convolution (cpu_application_workload.cpp). */
module Sobel {
  import opened Common

  type Byte = b: int | 0 <= b < 256

  const HORIZONTAL: seq<seq<int>> := [[-1, 0, 1], [-2, 0, 2], [-1, 0, 1]]
  const VERTICAL: seq<seq<int>> := [[-1, -2, -1], [0, 0, 0], [1, 2, 1]]

  // ---------------------------------------------------------------- the convolution

  predicate IsKernel(kernel: seq<seq<int>>) {
    |kernel| == 3 && |kernel[0]| == 3 && |kernel[1]| == 3 && |kernel[2]| == 3
  }

  predicate Interior(width: nat, height: nat, x: nat, y: nat) {
    1 <= x && x + 1 < width && 1 <= y && y + 1 < height
  }

  /** The first k of the nine products around (x, y), row by row. */
  function Convolve(image: seq<Byte>, width: nat, height: nat, x: nat, y: nat, kernel: seq<seq<int>>, k: nat): int
    requires |image| == width * height && Interior(width, height, x, y) && IsKernel(kernel) && k <= 9
  {
    if k == 0 then 0
    else
      var ky, kx := (k - 1) / 3, (k - 1) % 3;
      NeighbourInImage(width, height, x, y, ky, kx);
      Convolve(image, width, height, x, y, kernel, k - 1)
        + image[(y + ky - 1) * width + x + kx - 1] as int * kernel[ky][kx]
  }

  lemma NeighbourInImage(width: nat, height: nat, x: nat, y: nat, ky: nat, kx: nat)
    requires Interior(width, height, x, y) && ky < 3 && kx < 3
    ensures 0 <= (y + ky - 1) * width + x + kx - 1 < width * height
  {
    RowInside(width, height, y + ky - 1);
  }

  lemma RowInside(width: nat, height: nat, y: nat)
    requires y < height
    ensures 0 <= y * width && y * width + width <= width * height
    ensures (y + 1) * width == y * width + width
  {
    MulMonotone(0, y, width);
    MulMonotone(y + 1, height, width);
  }

  // ---------------------------------------------------------------- the filtered image, from the neighbours

  function PixelAt(image: seq<Byte>, width: nat, height: nat, x: nat, y: nat): int
    requires |image| == width * height && x < width && y < height
  {
    RowInside(width, height, y);
    image[y * width + x] as int
  }

  /** What the pixel at (x, y) has to be: zero on the border; inside, the sum of the horizontal and the vertical
      difference of the eight neighbours, each in absolute value, or 255 from there on. */
  predicate IsEdge(image: seq<Byte>, width: nat, height: nat, x: nat, y: nat, p: int)
    requires |image| == width * height && x < width && y < height
  {
    if x == 0 || y == 0 || x + 1 == width || y + 1 == height then p == 0
    else
      var north, south := y - 1, y + 1;
      var west, east := x - 1, x + 1;
      var gx := PixelAt(image, width, height, east, north) + 2 * PixelAt(image, width, height, east, y)
                + PixelAt(image, width, height, east, south) - PixelAt(image, width, height, west, north)
                - 2 * PixelAt(image, width, height, west, y) - PixelAt(image, width, height, west, south);
      var gy := PixelAt(image, width, height, west, south) + 2 * PixelAt(image, width, height, x, south)
                + PixelAt(image, width, height, east, south) - PixelAt(image, width, height, west, north)
                - 2 * PixelAt(image, width, height, x, north) - PixelAt(image, width, height, east, north);
      var sum := (if gx >= 0 then gx else -gx) + (if gy >= 0 then gy else -gy);
      if sum >= 255 then p == 255 else p == sum
  }

  /** output is the filtered image, pixel for pixel. */
  ghost predicate IsFiltered(output: seq<Byte>, image: seq<Byte>, width: nat, height: nat)
    requires |image| == width * height
  {
    && |output| == |image|
    && forall x, y | 0 <= x < width && 0 <= y < height ::
         IsEdge(image, width, height, x, y, PixelAt(output, width, height, x, y))
  }

  /** The clamped sum of the two gradients. */
  function Magnitude(gx: int, gy: int): Byte {
    Min(255, Abs(gx) + Abs(gy))
  }

  /** Zero on the border, the clamped gradient magnitude inside. */
  function SobelPixel(image: seq<Byte>, width: nat, height: nat, x: nat, y: nat): Byte
    requires |image| == width * height
  {
    if Interior(width, height, x, y) then
      Magnitude(Convolve(image, width, height, x, y, HORIZONTAL, 9),
                Convolve(image, width, height, x, y, VERTICAL, 9))
    else 0
  }

  function SobelRow(image: seq<Byte>, width: nat, height: nat, y: nat): seq<Byte>
    requires |image| == width * height
  {
    seq(width, x requires 0 <= x < width => SobelPixel(image, width, height, x, y))
  }

  /** The first n rows of the filtered image. */
  function SobelRows(image: seq<Byte>, width: nat, height: nat, n: nat): (r: seq<Byte>)
    requires |image| == width * height
    ensures |r| == n * width
  {
    if n == 0 then [] else SobelRows(image, width, height, n - 1) + SobelRow(image, width, height, n - 1)
  }

  function SobelImage(image: seq<Byte>, width: nat, height: nat): seq<Byte>
    requires |image| == width * height
  {
    SobelRows(image, width, height, height)
  }

  /** Every pixel of the image is where it belongs. */
  lemma {:induction false} SobelImageAt(image: seq<Byte>, width: nat, height: nat, n: nat, x: nat, y: nat)
    requires |image| == width * height && x < width && y < n
    ensures 0 <= y * width + x < n * width
    ensures SobelRows(image, width, height, n)[y * width + x] == SobelPixel(image, width, height, x, y)
    decreases n
  {
    hide SobelPixel;
    RowInside(width, n, y);
    if y < n - 1 {
      SobelImageAt(image, width, height, n - 1, x, y);
    }
  }

  lemma BorderRowIsZero(image: seq<Byte>, width: nat, height: nat, y: nat)
    requires |image| == width * height && (y == 0 || y + 1 >= height)
    ensures SobelRow(image, width, height, y) == seq(width, _ => 0)
  {
  }

  lemma BorderColumnIsZero(image: seq<Byte>, width: nat, height: nat, x: nat, y: nat)
    requires |image| == width * height && x < width && (x == 0 || x == width - 1)
    ensures SobelRow(image, width, height, y)[x] == 0
  {
  }

  lemma InteriorPixel(image: seq<Byte>, width: nat, height: nat, x: nat, y: nat)
    requires |image| == width * height && 1 <= x && x + 1 < width && 1 <= y && y + 1 < height
    ensures Interior(width, height, x, y)
    ensures SobelRow(image, width, height, y)[x]
      == Magnitude(Convolve(image, width, height, x, y, HORIZONTAL, 9),
                   Convolve(image, width, height, x, y, VERTICAL, 9))
  {
  }

  // ---------------------------------------------------------------- the reference

  /** An index computed in 32-bit unsigned arithmetic. */
  function Index32(v: int): (r: nat)
    ensures 0 <= v < U32 ==> r == v
  {
    v % U32
  }

  lemma SquareFits(side: nat)
    requires side <= 65536
    ensures side * side <= U32
  {
    MulMonotone(side, 65536, side);
  }

  /** The two nested kernel loops. */
  method ConvolveBoth(input: array<Byte>, side: nat, x: nat, y: nat) returns (gx: int, gy: int)
    requires Interior(side, side, x, y)
    requires side <= 65536 && input.Length == side * side
    ensures gx == Convolve(input[..], side, side, x, y, HORIZONTAL, 9)
    ensures gy == Convolve(input[..], side, side, x, y, VERTICAL, 9)
  {
    hide Index32, Convolve;
    gx, gy := 0, 0;
    SquareFits(side);
    ghost var image := input[..];
    ConvolveNothing(image, side, side, x, y, HORIZONTAL);
    ConvolveNothing(image, side, side, x, y, VERTICAL);
    for ky := 0 to 3
      invariant gx == Convolve(image, side, side, x, y, HORIZONTAL, 3 * ky)
      invariant gy == Convolve(image, side, side, x, y, VERTICAL, 3 * ky)
    {
      for kx := 0 to 3
        invariant gx == Convolve(image, side, side, x, y, HORIZONTAL, 3 * ky + kx)
        invariant gy == Convolve(image, side, side, x, y, VERTICAL, 3 * ky + kx)
      {
        NeighbourInImage(side, side, x, y, ky, kx);
        ConvolveNext(image, side, side, x, y, HORIZONTAL, ky, kx);
        ConvolveNext(image, side, side, x, y, VERTICAL, ky, kx);
        var pixel := input[Index32((y + ky - 1) * side + x + kx - 1)] as int;
        gx := gx + pixel * HORIZONTAL[ky][kx];
        gy := gy + pixel * VERTICAL[ky][kx];
      }
    }
  }

  lemma ConvolveNext(image: seq<Byte>, width: nat, height: nat, x: nat, y: nat, kernel: seq<seq<int>>, ky: nat, kx: nat)
    requires |image| == width * height && Interior(width, height, x, y) && IsKernel(kernel) && ky < 3 && kx < 3
    ensures 0 <= (y + ky - 1) * width + x + kx - 1 < width * height
    ensures Convolve(image, width, height, x, y, kernel, 3 * ky + kx + 1)
      == Convolve(image, width, height, x, y, kernel, 3 * ky + kx)
         + image[(y + ky - 1) * width + x + kx - 1] as int * kernel[ky][kx]
  {
    DivideBack(ky, 3, kx);
    ConvolveStep(image, width, height, x, y, kernel, 3 * ky + kx + 1, ky, kx);
    hide Convolve;
  }

  lemma ConvolveStep(image: seq<Byte>, width: nat, height: nat, x: nat, y: nat, kernel: seq<seq<int>>,
                     k: nat, ky: nat, kx: nat)
    requires |image| == width * height && Interior(width, height, x, y) && IsKernel(kernel)
    requires 0 < k <= 9 && (k - 1) / 3 == ky && (k - 1) % 3 == kx
    ensures 0 <= (y + ky - 1) * width + x + kx - 1 < width * height
    ensures Convolve(image, width, height, x, y, kernel, k)
      == Convolve(image, width, height, x, y, kernel, k - 1)
         + image[(y + ky - 1) * width + x + kx - 1] as int * kernel[ky][kx]
  {
    NeighbourInImage(width, height, x, y, ky, kx);
  }

  /** Writes the interior of row y, which starts at out, into an output that is zero from there on. */
  method ReferenceRow(input: array<Byte>, side: nat, output: array<Byte>, y: nat, ghost out: nat)
    requires side <= 65536 && input.Length == output.Length == side * side && input != output
    requires 1 <= y && y + 1 < side
    requires out == y * side && out + side <= output.Length
    requires forall i | out <= i < output.Length :: output[i] == 0
    modifies output
    ensures output[..out] == old(output[..out])
    ensures output[out..out + side] == SobelRow(input[..], side, side, y)
    ensures forall i | out + side <= i < output.Length :: output[i] == 0
  {
    hide Convolve, SobelRow, Index32;
    SquareFits(side);
    RowInside(side, side, y);
    ghost var image, row := input[..], SobelRow(input[..], side, side, y);
    RowLength(image, side, side, y);
    BorderColumnIsZero(image, side, side, 0, y);
    BorderColumnIsZero(image, side, side, side - 1, y);
    var x := 1;
    while x + 1 < side
      invariant 1 <= x < side && input[..] == image
      invariant output[..out] == old(output[..out])
      invariant forall i | 0 <= i < x :: output[out + i] == row[i]
      invariant forall i | out + x <= i < output.Length :: output[i] == 0
    {
      InteriorPixel(image, side, side, x, y);
      var gx, gy := ConvolveBoth(input, side, x, y);
      output[Index32(y * side + x)] := Magnitude(gx, gy);
      x := x + 1;
    }
  }

  lemma RowLength(image: seq<Byte>, width: nat, height: nat, y: nat)
    requires |image| == width * height
    ensures |SobelRow(image, width, height, y)| == width
  {
  }

  /** Up to a side of 65536 every index fits 32 bits. */
  method ReferenceSobel(input: array<Byte>, side: nat) returns (output: array<Byte>)
    requires side <= 65536 && input.Length == side * side
    ensures fresh(output) && output[..] == SobelImage(input[..], side, side)
    ensures IsFiltered(output[..], input[..], side, side)
  {
    output := ReferenceRows(input, side);
    FilteredExactly(output[..], input[..], side, side);
  }

  method ReferenceRows(input: array<Byte>, side: nat) returns (output: array<Byte>)
    requires side <= 65536 && input.Length == side * side
    ensures fresh(output) && output[..] == SobelImage(input[..], side, side)
  {
    hide SobelRow;
    ghost var image := input[..];
    output := new Byte[input.Length](_ => 0);
    if side == 0 {
      return;
    }
    BorderRowIsZero(image, side, side, 0);
    RowInside(side, side, 0);
    assert SobelRows(image, side, side, 0) == [];
    assert output[..side] == SobelRows(image, side, side, 1);
    var y := 1;
    ghost var out := side;
    while y + 1 < side
      invariant 1 <= y && (y < side || y == 1)
      invariant fresh(output) && output.Length == side * side && input[..] == image
      invariant out == y * side && out <= output.Length
      invariant output[..out] == SobelRows(image, side, side, y)
      invariant forall i | out <= i < output.Length :: output[i] == 0
    {
      RowInside(side, side, y);
      ReferenceRow(input, side, output, y, out);
      assert output[..out + side] == output[..out] + output[out..out + side];
      y, out := y + 1, out + side;
    }
    if y < side {
      RowInside(side, side, y);
      BorderRowIsZero(image, side, side, y);
      assert output[out..] == SobelRow(image, side, side, y);
      assert output[..] == output[..out] + output[out..];
    }
  }

  // ---------------------------------------------------------------- the measured filter

  /** The nine products written out: the terms with zero weight drop out. */
  lemma ConvolveExpands(image: seq<Byte>, width: nat, height: nat, x: nat, y: nat)
    requires |image| == width * height && Interior(width, height, x, y)
    ensures 0 <= (y - 1) * width && (y - 1) * width + 2 * width + x + 1 < width * height
    ensures
      var top := (y - 1) * width;
      var middle := top + width;
      var bottom := middle + width;
      && Convolve(image, width, height, x, y, HORIZONTAL, 9)
         == image[top + x + 1] as int - image[top + x - 1] as int
            + 2 * (image[middle + x + 1] as int - image[middle + x - 1] as int)
            + image[bottom + x + 1] as int - image[bottom + x - 1] as int
      && Convolve(image, width, height, x, y, VERTICAL, 9)
         == image[bottom + x - 1] as int - image[top + x - 1] as int
            + 2 * (image[bottom + x] as int - image[top + x] as int)
            + image[bottom + x + 1] as int - image[top + x + 1] as int
  {
    hide Convolve;
    RowInside(width, height, y - 1);
    RowInside(width, height, y);
    RowInside(width, height, y + 1);
    ConvolveNothing(image, width, height, x, y, HORIZONTAL);
    ConvolveNothing(image, width, height, x, y, VERTICAL);
    ThreeProducts(image, width, height, x, y, HORIZONTAL, 0);
    ThreeProducts(image, width, height, x, y, HORIZONTAL, 1);
    ThreeProducts(image, width, height, x, y, HORIZONTAL, 2);
    ThreeProducts(image, width, height, x, y, VERTICAL, 0);
    ThreeProducts(image, width, height, x, y, VERTICAL, 1);
    ThreeProducts(image, width, height, x, y, VERTICAL, 2);
  }

  lemma ConvolveNothing(image: seq<Byte>, width: nat, height: nat, x: nat, y: nat, kernel: seq<seq<int>>)
    requires |image| == width * height && Interior(width, height, x, y) && IsKernel(kernel)
    ensures Convolve(image, width, height, x, y, kernel, 0) == 0
  {
  }

  lemma ThreeProducts(image: seq<Byte>, width: nat, height: nat, x: nat, y: nat, kernel: seq<seq<int>>, ky: nat)
    requires |image| == width * height && Interior(width, height, x, y) && IsKernel(kernel) && ky < 3
    ensures 0 <= (y + ky - 1) * width + x - 1 && (y + ky - 1) * width + x + 1 < width * height
    ensures Convolve(image, width, height, x, y, kernel, 3 * ky + 3)
      == Convolve(image, width, height, x, y, kernel, 3 * ky)
         + image[(y + ky - 1) * width + x - 1] as int * kernel[ky][0]
         + image[(y + ky - 1) * width + x] as int * kernel[ky][1]
         + image[(y + ky - 1) * width + x + 1] as int * kernel[ky][2]
  {
    hide Convolve;
    ConvolveNext(image, width, height, x, y, kernel, ky, 0);
    ConvolveNext(image, width, height, x, y, kernel, ky, 1);
    ConvolveNext(image, width, height, x, y, kernel, ky, 2);
  }

  /** The pixel from its eight neighbours, row y starting at out. */
  lemma PixelFromNeighbours(image: seq<Byte>, width: nat, height: nat, x: nat, y: nat, out: nat)
    requires |image| == width * height && out == y * width
    requires 1 <= x && x + 1 < width && 1 <= y && y + 1 < height
    ensures width <= out && out + width + x + 1 < |image|
    ensures
      var top := out - width;
      var bottom := out + width;
      SobelRow(image, width, height, y)[x] == Magnitude(
        image[top + x + 1] as int - image[top + x - 1] as int
        + 2 * (image[out + x + 1] as int - image[out + x - 1] as int)
        + image[bottom + x + 1] as int - image[bottom + x - 1] as int,
        image[bottom + x - 1] as int - image[top + x - 1] as int
        + 2 * (image[bottom + x] as int - image[top + x] as int)
        + image[bottom + x + 1] as int - image[top + x + 1] as int)
  {
    hide SobelRow, Convolve;
    InteriorPixel(image, width, height, x, y);
    ConvolveExpands(image, width, height, x, y);
    RowInside(width, height, y - 1);
  }

  /** A pixel of the image is what its neighbours make it. */
  lemma PixelIsEdge(image: seq<Byte>, width: nat, height: nat, x: nat, y: nat)
    requires |image| == width * height && x < width && y < height
    ensures IsEdge(image, width, height, x, y, SobelPixel(image, width, height, x, y))
  {
    hide Convolve;
    if Interior(width, height, x, y) {
      ConvolveExpands(image, width, height, x, y);
      RowInside(width, height, y - 1);
      RowInside(width, height, y);
    }
  }

  lemma OneEdge(image: seq<Byte>, width: nat, height: nat, x: nat, y: nat, p: int, q: int)
    requires |image| == width * height && x < width && y < height
    requires IsEdge(image, width, height, x, y, p) && IsEdge(image, width, height, x, y, q)
    ensures p == q
  {
  }

  lemma SamePixels(a: seq<Byte>, b: seq<Byte>, width: nat, height: nat)
    requires |a| == |b| == width * height
    requires forall x, y | 0 <= x < width && 0 <= y < height ::
      PixelAt(a, width, height, x, y) == PixelAt(b, width, height, x, y)
    ensures a == b
  {
    forall i | 0 <= i < |a| ensures a[i] == b[i] {
      Place(width, height, i);
      assert PixelAt(a, width, height, i % width, i / width) == PixelAt(b, width, height, i % width, i / width);
    }
  }

  lemma Place(width: nat, height: nat, i: nat)
    requires i < width * height
    ensures width > 0 && i / width < height && i % width < width && i / width * width + i % width == i
  {
    if i / width >= height {
      MulMonotone(height, i / width, width);
    }
  }

  /** Exactly one image is the filtered one. */
  lemma FilteredExactly(output: seq<Byte>, image: seq<Byte>, width: nat, height: nat)
    requires |image| == width * height
    ensures IsFiltered(output, image, width, height) <==> output == SobelImage(image, width, height)
  {
    hide IsEdge, PixelAt, SobelPixel, SobelRows;
    var expected := SobelImage(image, width, height);
    forall x, y | 0 <= x < width && 0 <= y < height
      ensures IsEdge(image, width, height, x, y, PixelAt(expected, width, height, x, y))
    {
      ImagePixel(image, width, height, x, y);
      PixelIsEdge(image, width, height, x, y);
    }
    if IsFiltered(output, image, width, height) {
      forall x, y | 0 <= x < width && 0 <= y < height
        ensures PixelAt(output, width, height, x, y) == PixelAt(expected, width, height, x, y)
      {
        OneEdge(image, width, height, x, y, PixelAt(output, width, height, x, y), PixelAt(expected, width, height, x, y));
      }
      SamePixels(output, expected, width, height);
    }
  }

  lemma ImagePixel(image: seq<Byte>, width: nat, height: nat, x: nat, y: nat)
    requires |image| == width * height && x < width && y < height
    ensures PixelAt(SobelImage(image, width, height), width, height, x, y) == SobelPixel(image, width, height, x, y)
  {
    hide SobelPixel;
    SobelImageAt(image, width, height, height, x, y);
  }

  /** The pixel at x of row y, which starts at out, by row offsets. */
  method FilterPixel(input: array<Byte>, width: nat, height: nat, x: nat, y: nat, out: nat) returns (pixel: Byte)
    requires input.Length == width * height && out == y * width
    requires 1 <= x && x + 1 < width && 1 <= y && y + 1 < height
    ensures |SobelRow(input[..], width, height, y)| == width && pixel == SobelRow(input[..], width, height, y)[x]
  {
    hide SobelRow, Magnitude;
    RowLength(input[..], width, height, y);
    PixelFromNeighbours(input[..], width, height, x, y, out);
    var top, middle, bottom := out - width, out, out + width;
    var gx := input[top + x + 1] as int - input[top + x - 1] as int
              + 2 * (input[middle + x + 1] as int - input[middle + x - 1] as int)
              + input[bottom + x + 1] as int - input[bottom + x - 1] as int;
    var gy := input[bottom + x - 1] as int - input[top + x - 1] as int
              + 2 * (input[bottom + x] as int - input[top + x] as int)
              + input[bottom + x + 1] as int - input[top + x + 1] as int;
    pixel := Magnitude(gx, gy);
  }

  /** Overwrites row y of the output, which starts at out, whatever it held. */
  method FilterRow(input: array<Byte>, width: nat, height: nat, output: array<Byte>, y: nat, out: nat)
    requires input.Length == output.Length == width * height && input != output
    requires width >= 3 && 1 <= y && y + 1 < height
    requires out == y * width && out + width <= output.Length
    modifies output
    ensures output[..out] == old(output[..])[..out]
    ensures output[out..out + width] == SobelRow(input[..], width, height, y)
    ensures output[out + width..] == old(output[..])[out + width..]
  {
    hide SobelRow;
    ghost var image, row := input[..], SobelRow(input[..], width, height, y);
    RowLength(image, width, height, y);
    BorderColumnIsZero(image, width, height, 0, y);
    BorderColumnIsZero(image, width, height, width - 1, y);
    output[out + width - 1] := 0;
    output[out] := 0;
    var x := 1;
    while x + 1 < width
      invariant 1 <= x < width && input[..] == image
      invariant forall i | 0 <= i < out :: output[i] == old(output[..])[i]
      invariant forall i | 0 <= i < x :: output[out + i] == row[i]
      invariant output[out + width - 1] == 0
      invariant forall i | out + width <= i < output.Length :: output[i] == old(output[..])[i]
    {
      output[out + x] := FilterPixel(input, width, height, x, y, out);
      x := x + 1;
    }
  }

  /** Refuses missing, aliased or mis-sized buffers; otherwise fills the output, pixel for pixel
      the convolution that `ReferenceSobel` computes. */
  method ApplicationSobel(input: array<Byte>, width: nat, height: nat, output: array?<Byte>) returns (ok: bool)
    modifies output
    ensures ok == (output != null && output != input && width >= 3 && height >= 3
                   && width * height == input.Length && output.Length == input.Length)
    ensures ok ==> output[..] == SobelImage(input[..], width, height)
    ensures ok ==> IsFiltered(output[..], input[..], width, height)
    ensures !ok && output != null ==> output[..] == old(output[..])
  {
    if output == null || output == input || width < 3 || height < 3
       || width * height != input.Length || output.Length != input.Length {
      return false;
    }
    ok := true;
    FilterRows(input, width, height, output);
    FilteredExactly(output[..], input[..], width, height);
  }

  method FilterRows(input: array<Byte>, width: nat, height: nat, output: array<Byte>)
    requires input.Length == output.Length == width * height && input != output && width >= 3 && height >= 3
    modifies output
    ensures output[..] == SobelImage(input[..], width, height)
  {
    hide SobelRow, SobelRows, RowsDone;
    ghost var image := input[..];
    RowInside(width, height, 0);
    RowInside(width, height, height - 1);
    forall i | 0 <= i < width { output[i] := 0; }
    forall i | output.Length - width <= i < output.Length { output[i] := 0; }
    FirstRow(image, width, height, output[..]);
    var y, out := 1, width;
    while y + 1 < height
      invariant 1 <= y < height && input[..] == image && out == y * width
      invariant RowsDone(output[..], image, width, height, y)
    {
      RowInside(width, height, y);
      ghost var before := output[..];
      FilterRow(input, width, height, output, y, out);
      NextRow(image, width, height, before, output[..], y, out);
      y, out := y + 1, out + width;
    }
    LastRow(image, width, height, output[..]);
  }

  /** The first n rows are in place, and the last one is still zero. */
  ghost predicate RowsDone(output: seq<Byte>, image: seq<Byte>, width: nat, height: nat, n: nat)
    requires |image| == |output| == width * height && n < height
  {
    RowInside(width, height, n);
    RowInside(width, height, height - 1);
    && output[..n * width] == SobelRows(image, width, height, n)
    && forall i | (height - 1) * width <= i < |output| :: output[i] == 0
  }

  lemma FirstRow(image: seq<Byte>, width: nat, height: nat, output: seq<Byte>)
    requires |image| == |output| == width * height && height > 1
    requires 0 <= (height - 1) * width && (height - 1) * width + width == |output|
    requires forall i | 0 <= i < width || (height - 1) * width <= i < |output| :: 0 <= i < |output| && output[i] == 0
    ensures RowsDone(output, image, width, height, 1)
  {
    hide SobelRow, SobelRows;
    RowInside(width, height, 1);
    BorderRowIsZero(image, width, height, 0);
    RowsNext(image, width, height, 0);
  }

  lemma NextRow(image: seq<Byte>, width: nat, height: nat, before: seq<Byte>, after: seq<Byte>, y: nat, out: nat)
    requires |image| == |before| == |after| == width * height && y + 1 < height && out == y * width
    requires RowsDone(before, image, width, height, y) && out + width <= |after|
    requires after[..out] == before[..out] && after[out + width..] == before[out + width..]
    requires after[out..out + width] == SobelRow(image, width, height, y)
    ensures RowsDone(after, image, width, height, y + 1)
  {
    hide SobelRow, SobelRows;
    RowInside(width, height - 1, y);
    RowInside(width, height, height - 1);
    RowsNext(image, width, height, y);
    assert after[..out + width] == after[..out] + after[out..out + width];
    TailStays(before, after, out + width, (height - 1) * width);
  }

  lemma TailStays(before: seq<Byte>, after: seq<Byte>, k: nat, last: nat)
    requires |before| == |after| && k <= last <= |before| && after[k..] == before[k..]
    requires forall i | last <= i < |before| :: before[i] == 0
    ensures forall i | last <= i < |after| :: after[i] == 0
  {
    forall i | last <= i < |after| ensures after[i] == 0 {
      assert after[i] == after[k..][i - k] && before[i] == before[k..][i - k];
    }
  }

  lemma LastRow(image: seq<Byte>, width: nat, height: nat, output: seq<Byte>)
    requires |image| == |output| == width * height && height > 0 && RowsDone(output, image, width, height, height - 1)
    ensures output == SobelImage(image, width, height)
  {
    hide SobelRow, SobelRows;
    RowInside(width, height, height - 1);
    BorderRowIsZero(image, width, height, height - 1);
    RowsNext(image, width, height, height - 1);
    var last := (height - 1) * width;
    assert output[last..] == SobelRow(image, width, height, height - 1);
    assert output == output[..last] + output[last..];
  }

  lemma RowsNext(image: seq<Byte>, width: nat, height: nat, n: nat)
    requires |image| == width * height
    ensures SobelRows(image, width, height, n + 1) == SobelRows(image, width, height, n) + SobelRow(image, width, height, n)
    ensures SobelRows(image, width, height, 0) == []
  {
  }
}
