/** Copying a decoded 4:2:0 frame into one I420 buffer, and reading it back. */
module Pixels {
  import opened Basics

  /** A decoded frame: for each of the planes Y, U and V its rows, which may be padded. */
  datatype Frame = Frame(width: int, height: int, planes: seq<seq<seq<Byte>>>, pts: int)

  function PlaneWidth(f: Frame, plane: nat): int {
    if plane == 0 then f.width else (f.width + 1) / 2
  }

  function PlaneHeight(f: Frame, plane: nat): int {
    if plane == 0 then f.height else (f.height + 1) / 2
  }

  predicate PlaneOk(f: Frame, plane: nat)
    requires plane < |f.planes|
  {
    && PlaneHeight(f, plane) <= |f.planes[plane]|
    && forall y :: 0 <= y < PlaneHeight(f, plane) ==> PlaneWidth(f, plane) <= |f.planes[plane][y]|
  }

  /** What the decoder hands over: positive dimensions and complete planes. */
  predicate FrameOk(f: Frame) {
    f.width > 0 && f.height > 0 && |f.planes| == 3 && PlaneOk(f, 0) && PlaneOk(f, 1) && PlaneOk(f, 2)
  }

  /** The least even number from `value` on. */
  function Even(value: int): (r: int)
    requires value >= 0
    ensures value <= r <= value + 1 && r % 2 == 0
  {
    (value + 1) / 2 * 2
  }

  function LumaSize(f: Frame): (n: int)
    requires f.width > 0 && f.height > 0
  {
    Even(f.width) * Even(f.height)
  }

  /** Byte `p` belongs to the `h` rows of `w` bytes laid out `stride` apart from `base`. */
  predicate InPlane(base: int, stride: int, w: int, h: int, p: int)
    requires stride > 0
  {
    base <= p < base + h * stride && (p - base) % stride < w
  }

  // ---------------------------------------------------------------- index arithmetic

  lemma MulMonotone(a: int, b: int, s: int)
    requires a <= b && s > 0
    ensures a * s <= b * s
  {
  }

  lemma MulNext(a: int, s: int)
    ensures (a + 1) * s == a * s + s
  {
  }

  lemma UniqueDivision(s: int, q: int, r: int, y: int, x: int)
    requires 0 <= r < s && 0 <= x < s && q * s + r == y * s + x
    ensures q == y && r == x
  {
    MulNext(q, s);
    MulNext(y, s);
    if q < y {
      MulMonotone(q + 1, y, s);
    } else if y < q {
      MulMonotone(y + 1, q, s);
    }
  }

  /** Row and column of a byte are recovered by division. */
  lemma RowAndColumn(stride: int, y: int, x: int)
    requires 0 <= x < stride
    ensures (y * stride + x) / stride == y && (y * stride + x) % stride == x
  {
    var a := y * stride + x;
    UniqueDivision(stride, a / stride, a % stride, y, x);
  }

  /** One more row adds exactly its own bytes. */
  lemma OneMoreRow(base: int, stride: int, w: int, y: int, p: int)
    requires 0 <= y && 0 <= w <= stride && stride > 0
    ensures InPlane(base, stride, w, y + 1, p) <==>
            InPlane(base, stride, w, y, p) || base + y * stride <= p < base + y * stride + w
    ensures base + y * stride <= p < base + y * stride + w ==>
            (p - base) / stride == y && (p - base) % stride == p - base - y * stride
    ensures InPlane(base, stride, w, y, p) ==> (p - base) / stride < y && p < base + y * stride
  {
    assert (y + 1) * stride == y * stride + stride;
    if base + y * stride <= p < base + (y + 1) * stride {
      RowAndColumn(stride, y, p - base - y * stride);
    }
    if InPlane(base, stride, w, y, p) {
      RowInRange(stride, y, p - base);
    }
  }

  lemma RowInRange(stride: int, h: int, a: int)
    requires stride > 0 && 0 <= a < h * stride
    ensures 0 <= a / stride < h
  {
    var q := a / stride;
    MulNext(q, stride);
    if q >= h {
      MulMonotone(h, q, stride);
    } else if q < 0 {
      MulMonotone(q + 1, 0, stride);
    }
  }

  /** The four quarter planes of a luma plane with even sides. */
  lemma EvenSides(f: Frame)
    requires f.width > 0 && f.height > 0
    ensures Even(f.width) / 2 == (f.width + 1) / 2 > 0 && Even(f.height) / 2 == (f.height + 1) / 2 > 0
    ensures LumaSize(f) == 4 * ((Even(f.width) / 2) * (Even(f.height) / 2))
    ensures LumaSize(f) / 4 == (Even(f.width) / 2) * (Even(f.height) / 2)
    ensures LumaSize(f) / 2 == 2 * (LumaSize(f) / 4)
    ensures LumaSize(f) > 0
  {
    var a, b := (f.width + 1) / 2, (f.height + 1) / 2;
    assert Even(f.width) == 2 * a && Even(f.height) == 2 * b;
    assert (2 * a) * (2 * b) == 4 * (a * b);
    assert a * b > 0;
  }

  // ---------------------------------------------------------------- the copy

  /** The buffer byte `p` once `h` rows of a plane were copied over `before`. */
  function Pasted(before: seq<Byte>, base: int, stride: int, w: int, h: int, rows: seq<seq<Byte>>, p: int): Byte
    requires 0 < w <= stride && 0 <= h <= |rows| && 0 <= p < |before|
    requires forall y :: 0 <= y < h ==> w <= |rows[y]|
  {
    if InPlane(base, stride, w, h, p)
    then RowInRange(stride, h, p - base); rows[(p - base) / stride][(p - base) % stride]
    else before[p]
  }

  lemma PastedOneMore(before: seq<Byte>, base: int, stride: int, w: int, y: nat, rows: seq<seq<Byte>>, p: int)
    requires 0 < w <= stride && y < |rows| && 0 <= p < |before|
    requires forall k :: 0 <= k < y + 1 ==> w <= |rows[k]|
    ensures Pasted(before, base, stride, w, y + 1, rows, p) ==
            if base + y * stride <= p < base + y * stride + w then rows[y][p - base - y * stride]
            else Pasted(before, base, stride, w, y, rows, p)
  {
    OneMoreRow(base, stride, w, y, p);
  }

  method CopyPlane(data: array<Byte>, base: int, stride: int, w: int, h: int, rows: seq<seq<Byte>>)
    requires 0 <= base && 0 < w <= stride && 0 <= h <= |rows| && base + h * stride <= data.Length
    requires forall y :: 0 <= y < h ==> w <= |rows[y]|
    modifies data
    ensures forall p :: 0 <= p < data.Length ==> data[p] == Pasted(old(data[..]), base, stride, w, h, rows, p)
  {
    ghost var before := data[..];
    for y := 0 to h
      invariant forall p :: 0 <= p < data.Length ==> data[p] == Pasted(before, base, stride, w, y, rows, p)
    {
      RowFits(stride, w, y, h);
      CopyRow(data, base + y * stride, rows[y][..w]);
      forall p | 0 <= p < data.Length
        ensures data[p] == Pasted(before, base, stride, w, y + 1, rows, p)
      {
        PastedOneMore(before, base, stride, w, y, rows, p);
      }
    }
  }

  lemma RowFits(stride: int, w: int, y: int, h: int)
    requires 0 <= w <= stride && 0 <= y < h
    ensures 0 <= y * stride && y * stride + w <= h * stride
  {
    assert (y + 1) * stride <= h * stride;
  }

  method CopyRow(data: array<Byte>, at: int, row: seq<Byte>)
    requires 0 <= at && at + |row| <= data.Length
    modifies data
    ensures forall p :: 0 <= p < data.Length ==>
              data[p] == if at <= p < at + |row| then row[p - at] else old(data[p])
  {
    for i := 0 to |row|
      invariant forall p :: 0 <= p < data.Length ==>
                  data[p] == if at <= p < at + i then row[p - at] else old(data[p])
    {
      data[at + i] := row[i];
    }
  }

  // ---------------------------------------------------------------- the whole frame

  /** What byte `p` of the buffer holds: a sample, or the padding value 128. */
  function PixelAt(f: Frame, p: int): Byte
    requires FrameOk(f) && 0 <= p < LumaSize(f) + LumaSize(f) / 2
  {
    EvenSides(f);
    var luma, stride := LumaSize(f), Even(f.width);
    if p < luma then
      if InPlane(0, stride, f.width, f.height, p)
      then RowInRange(stride, f.height, p); f.planes[0][p / stride][p % stride] else 128
    else
      var half := stride / 2;
      var plane := if p < luma + luma / 4 then 1 else 2;
      var q := p - luma - (plane - 1) * (luma / 4);
      ChromaIndex(f, q);
      f.planes[plane][q / half][q % half]
  }

  /** A chroma plane has no padding: its rows fill a quarter of the luma size. */
  lemma ChromaIndex(f: Frame, q: int)
    requires f.width > 0 && f.height > 0 && 0 <= q < LumaSize(f) / 4
    ensures var half := Even(f.width) / 2;
            half > 0 && 0 <= q / half < (f.height + 1) / 2 && 0 <= q % half < (f.width + 1) / 2
  {
    EvenSides(f);
    MulCommutes((f.height + 1) / 2, Even(f.width) / 2);
    RowInRange(Even(f.width) / 2, (f.height + 1) / 2, q);
  }

  lemma MulCommutes(a: int, b: int)
    ensures a * b == b * a
  {
  }

  /** The I420 form of a frame. */
  function I420(f: Frame): (data: seq<Byte>)
    requires FrameOk(f)
    ensures |data| == LumaSize(f) + LumaSize(f) / 2
  {
    EvenSides(f);
    seq(LumaSize(f) + LumaSize(f) / 2, p requires 0 <= p < LumaSize(f) + LumaSize(f) / 2 => PixelAt(f, p))
  }

  /** `EmitFrame`'s copy: every plane write is in bounds, and together they give `I420`. */
  method FillI420(f: Frame) returns (data: array<Byte>)
    requires FrameOk(f)
    ensures fresh(data) && data[..] == I420(f)
  {
    EvenSides(f);
    var stride := Even(f.width);
    var luma := stride * Even(f.height);
    data := new Byte[luma + luma / 2](_ => 128);
    LumaFits(f);
    CopyPlane(data, 0, stride, f.width, f.height, f.planes[0]);
    ghost var first := data[..];
    var half, w, h := stride / 2, (f.width + 1) / 2, (f.height + 1) / 2;
    MulCommutes(h, half);
    CopyPlane(data, luma, half, w, h, f.planes[1]);
    ghost var second := data[..];
    CopyPlane(data, luma + luma / 4, half, w, h, f.planes[2]);
    forall p | 0 <= p < data.Length
      ensures data[p] == PixelAt(f, p)
    {
      if p < luma {
        assert data[p] == second[p] == first[p];
      } else {
        var plane := if p < luma + luma / 4 then 1 else 2;
        ChromaIndex(f, p - luma - (plane - 1) * (luma / 4));
        if plane == 1 {
          assert data[p] == second[p];
        }
      }
    }
  }

  lemma LumaFits(f: Frame)
    requires f.width > 0 && f.height > 0
    ensures f.height * Even(f.width) <= LumaSize(f)
  {
    MulMonotone(f.height, Even(f.height), Even(f.width));
    MulCommutes(Even(f.height), Even(f.width));
  }

  // ---------------------------------------------------------------- reading it back

  /** The first byte of a plane, from the stride and slice height a client is told. */
  function PlaneBase(stride: int, sliceHeight: int, plane: nat): int {
    if plane == 0 then 0
    else if plane == 1 then stride * sliceHeight
    else stride * sliceHeight + (stride / 2) * (sliceHeight / 2)
  }

  function PlaneStride(stride: int, plane: nat): int {
    if plane == 0 then stride else stride / 2
  }

  /** A client that walks the buffer with the reported stride and slice height finds every
      sample of every plane, odd sizes included. */
  lemma ClientSeesSample(f: Frame, plane: nat, y: int, x: int)
    requires FrameOk(f) && plane < 3 && 0 <= y < PlaneHeight(f, plane) && 0 <= x < PlaneWidth(f, plane)
    ensures var stride, slice := Even(f.width), Even(f.height);
            var p := PlaneBase(stride, slice, plane) + y * PlaneStride(stride, plane) + x;
            0 <= p < |I420(f)| && I420(f)[p] == f.planes[plane][y][x]
  {
    EvenSides(f);
    var stride, half := Even(f.width), Even(f.width) / 2;
    var luma := LumaSize(f);
    if plane == 0 {
      LumaFits(f);
      RowFits(stride, f.width, y, f.height);
      RowAndColumn(stride, y, x);
    } else {
      var h := (f.height + 1) / 2;
      MulCommutes(h, half);
      RowFits(half, half, y, h);
      RowAndColumn(half, y, x);
      var q := y * half + x;
      assert 0 <= q < luma / 4;
      assert PlaneBase(stride, Even(f.height), plane) == luma + (plane - 1) * (luma / 4);
    }
  }

  /** Luma bytes beside or below the picture are 128. */
  lemma PaddingIsGrey(f: Frame, y: int, x: int)
    requires FrameOk(f) && 0 <= y < Even(f.height) && 0 <= x < Even(f.width)
    requires y >= f.height || x >= f.width
    ensures var p := y * Even(f.width) + x;
            0 <= p < |I420(f)| && I420(f)[p] == 128
  {
    EvenSides(f);
    var stride := Even(f.width);
    MulCommutes(Even(f.height), stride);
    RowFits(stride, stride, y, Even(f.height));
    RowAndColumn(stride, y, x);
    if y >= f.height {
      MulMonotone(f.height, y, stride);
    }
  }
}
