/** The column-to-row transposition of the driver and of the raster tool. */
module Raster {
  import opened Bytes

  lemma IndexInRange(row: nat, column: nat, rows: nat, columns: nat)
    requires row < rows && column < columns
    ensures 0 <= row * columns + column < rows * columns
  {
    assert (row + 1) * columns <= rows * columns;
  }

  lemma Monotone(a: int, b: int, c: nat)
    ensures a <= b ==> a * c <= b * c
  {
  }

  lemma SplitIndex(row: nat, column: nat, columns: nat)
    requires column < columns
    ensures (row * columns + column) / columns == row
    ensures (row * columns + column) % columns == column
  {
    var k := row * columns + column;
    var q := k / columns;
    assert k == q * columns + k % columns;
    Monotone(q + 1, row, columns);
    Monotone(row + 1, q, columns);
  }

  lemma JoinIndex(k: nat, rows: nat, columns: nat)
    requires k < rows * columns
    ensures columns > 0 && 0 <= k / columns < rows && 0 <= k % columns < columns
    ensures k == (k / columns) * columns + k % columns
  {
    assert columns > 0;
    assert k == (k / columns) * columns + k % columns;
    Monotone(rows, k / columns, columns);
  }

  /** The input position of output position `k`: input columns of `height` bytes, output rows of `width`. */
  function Source(k: nat, width: nat, height: nat): (r: nat)
    requires k < width * height
    ensures r < width * height
  {
    assert height * width == width * height;
    JoinIndex(k, height, width);
    IndexInRange(k % width, k / width, width, height);
    (k % width) * height + k / width
  }

  /** `column_major_to_raster`, for any width and height. */
  function ColumnMajorToRaster(pixels: seq<byte>, width: nat, height: nat): (r: seq<byte>)
    requires |pixels| == width * height
  {
    seq(width * height, k requires 0 <= k < width * height => pixels[Source(k, width, height)])
  }

  /** Transposing twice, with the dimensions swapped, moves every position back to itself. */
  lemma SourceOfSource(k: nat, width: nat, height: nat)
    requires k < width * height
    ensures Source(Source(k, width, height), height, width) == k
  {
    assert height * width == width * height;
    JoinIndex(k, height, width);
    SplitIndex(k % width, k / width, height);
  }

  lemma TransposeTwice(pixels: seq<byte>, width: nat, height: nat)
    requires |pixels| == width * height
    ensures height * width == width * height
    ensures ColumnMajorToRaster(ColumnMajorToRaster(pixels, width, height), height, width) == pixels
  {
    assert height * width == width * height;
    forall k | 0 <= k < width * height
      ensures ColumnMajorToRaster(ColumnMajorToRaster(pixels, width, height), height, width)[k] == pixels[k]
    {
      SourceOfSource(k, height, width);
    }
  }

  /** Every input pixel is used, and used once. */
  lemma EveryPixelUsedOnce(width: nat, height: nat, p: nat)
    requires p < width * height
    ensures exists k: nat :: k < width * height && Source(k, width, height) == p
    ensures forall k: nat :: k < width * height && Source(k, width, height) == p
              ==> k == p % height * width + p / height
  {
    var n := width * height;
    assert height * width == n;
    SourceOfSource(p, height, width);
    var k0 := Source(p, height, width);
    assert k0 < n && Source(k0, width, height) == p;
    forall k: nat | k < n && Source(k, width, height) == p
      ensures k == k0
    {
      SourceOfSource(k, width, height);
    }
  }

  lemma RasterAt(pixels: seq<byte>, width: nat, height: nat, x: nat, y: nat)
    requires |pixels| == width * height && x < width && y < height
    ensures 0 <= y * width + x < width * height && 0 <= x * height + y < width * height
    ensures ColumnMajorToRaster(pixels, width, height)[y * width + x] == pixels[x * height + y]
  {
    IndexInRange(y, x, height, width);
    IndexInRange(x, y, width, height);
    SplitIndex(y, x, width);
  }

  /** The nested copy loop of `capture_read_cb`. */
  method CopyTransposed(buffer: seq<byte>, header: nat, width: nat, height: nat) returns (data: array<byte>)
    requires |buffer| == header + width * height
    ensures fresh(data)
    ensures data[..] == ColumnMajorToRaster(buffer[header..], width, height)
  {
    ghost var raster := ColumnMajorToRaster(buffer[header..], width, height);
    assert height * width == |raster|;
    data := new byte[height * width];
    ghost var done := 0;
    for y := 0 to height
      invariant data.Length == |raster| && done == y * width <= |raster|
      invariant forall k :: 0 <= k < done ==> data[k] == raster[k]
    {
      for x := 0 to width
        invariant done == y * width + x <= |raster|
        invariant forall k :: 0 <= k < done ==> data[k] == raster[k]
      {
        RasterAt(buffer[header..], width, height, x, y);
        data[y * width + x] := buffer[header + x * height + y];
        done := done + 1;
      }
      Monotone(y + 1, height, width);
    }
  }
}
