/**
 * The software rendering path, `fill_window`: lock the window's pixel buffer,
 * paint every visible pixel red, and post the buffer.
 *
 * The window calls are platform I/O. What they report is given as inputs: the
 * window (absent for a null pointer), its width and height, the status the
 * lock returns, and the locked buffer as an array of 32-bit pixels together
 * with its row pitch `stride`, counted in pixels.
 */
module WindowFill {

  import opened Wrappers

  /** `0xFF0000FF`: red in the RGBA_8888 pixel format. */
  const Red: bv32 := 0xFF0000FF

  /** What the platform reports about a window: `ANativeWindow_getWidth`,
      `ANativeWindow_getHeight`, and the status `ANativeWindow_lock` returns
      (negative on failure). */
  datatype NativeWindow = NativeWindow(width: int, height: int, lockStatus: int)

  /** The conversion of a C integer to `uint16_t`. */
  function ToUint16(v: int): (r: nat)
    ensures r < 65536
    ensures 0 <= v < 65536 ==> r == v
    ensures (v - r) % 65536 == 0
  {
    v % 65536
  }

  /** Whether pixel `k` of a buffer with row pitch `stride` lies in the
      `w` by `h` rectangle at the top left: its row is below `h`, its column below `w`. */
  predicate InRect(k: nat, w: nat, h: nat, stride: nat) {
    stride > 0 && k / stride < h && k % stride < w
  }

  /** The buffer `s` once the `w` by `h` rectangle is painted red. */
  function Filled(s: seq<bv32>, w: nat, h: nat, stride: nat): (r: seq<bv32>)
    ensures |r| == |s|
  {
    seq(|s|, k requires 0 <= k < |s| => if InRect(k, w, h, stride) then Red else s[k])
  }

  /** Euclidean division recovers row and column from a pixel offset. */
  lemma RowCol(y: nat, x: nat, stride: nat)
    requires x < stride
    ensures (y * stride + x) / stride == y
    ensures (y * stride + x) % stride == x
  {
    var k := y * stride + x;
    var q, r := k / stride, k % stride;
    assert k == q * stride + r;
    if q < y {
      MulMonotone(q + 1, y, stride);
      assert false;
    } else if q > y {
      MulMonotone(y + 1, q, stride);
      assert false;
    }
  }

  lemma MulMonotone(a: int, b: int, c: nat)
    requires a <= b
    ensures a * c <= b * c
  {
    assert b * c - a * c == (b - a) * c;
  }

  /** Row `y` of the first `h` rows ends inside the `h * stride` pixels the buffer holds. */
  lemma RowInside(y: nat, x: nat, h: nat, stride: nat)
    requires y < h && x < stride
    ensures y * stride + x < h * stride
  {
    MulMonotone(y + 1, h, stride);
  }

  /** The buffer `s` with the `n` pixels from offset `start` on painted red. */
  function PaintSpan(s: seq<bv32>, start: nat, n: nat): (r: seq<bv32>)
    ensures |r| == |s|
  {
    seq(|s|, k requires 0 <= k < |s| => if start <= k < start + n then Red else s[k])
  }

  /** Writing one more pixel after a painted span extends the span by one. */
  lemma PaintSpanStep(s: seq<bv32>, start: nat, n: nat)
    requires start + n < |s|
    ensures PaintSpan(s, start, n)[start + n := Red] == PaintSpan(s, start, n + 1)
  {
  }

  /** Painting `h + 1` rows is painting `h` rows and then the first `w` pixels of row `h`. */
  lemma InRectNextRow(k: nat, w: nat, h: nat, stride: nat)
    requires w <= stride
    ensures InRect(k, w, h + 1, stride) <==> InRect(k, w, h, stride) || (h * stride <= k < h * stride + w)
  {
    if stride > 0 {
      if h * stride <= k < h * stride + w {
        RowCol(h, k - h * stride, stride);
      }
      if k / stride == h {
        assert k == h * stride + k % stride;
      }
    }
  }

  /** The rectangle of `h + 1` rows is the rectangle of `h` rows plus the
      first `w` pixels of row `h`, which starts at offset `h * stride`. */
  lemma FilledNextRow(s: seq<bv32>, w: nat, h: nat, stride: nat)
    requires w <= stride
    ensures Filled(s, w, h + 1, stride) == PaintSpan(Filled(s, w, h, stride), h * stride, w)
  {
    forall k | 0 <= k < |s|
      ensures Filled(s, w, h + 1, stride)[k] == PaintSpan(Filled(s, w, h, stride), h * stride, w)[k]
    {
      InRectNextRow(k, w, h, stride);
    }
  }

  /** Painting no rows leaves the buffer as it is. */
  lemma FilledNoRows(s: seq<bv32>, w: nat, stride: nat)
    ensures Filled(s, w, 0, stride) == s
  {
  }

  /** Painting an empty span leaves the buffer as it is. */
  lemma PaintSpanEmpty(s: seq<bv32>, start: nat)
    ensures PaintSpan(s, start, 0) == s
  {
  }

  /** Every pixel `y * stride + x` with `y < h` and `x < w` is painted. */
  lemma FilledPaintsRect(s: seq<bv32>, w: nat, h: nat, stride: nat, y: nat, x: nat)
    requires w <= stride && h * stride <= |s|
    requires y < h && x < w
    ensures y * stride + x < |s| && Filled(s, w, h, stride)[y * stride + x] == Red
  {
    RowCol(y, x, stride);
    RowInside(y, x, h, stride);
  }

  /** Row padding, the pixels `y * stride + x` with `w <= x < stride`, keeps its contents. */
  lemma FilledKeepsPadding(s: seq<bv32>, w: nat, h: nat, stride: nat, y: nat, x: nat)
    requires w <= x < stride && y * stride + x < |s|
    ensures Filled(s, w, h, stride)[y * stride + x] == s[y * stride + x]
  {
    RowCol(y, x, stride);
  }

  /** The pixels after the first `h` rows keep their contents. */
  lemma FilledKeepsLaterRows(s: seq<bv32>, w: nat, h: nat, stride: nat, k: nat)
    requires h * stride <= k < |s|
    ensures Filled(s, w, h, stride)[k] == s[k]
  {
    if stride > 0 && k / stride < h {
      MulMonotone(k / stride + 1, h, stride);
      assert false;
    }
  }

  /** `fill_window`. A null window or a failed lock returns at once: no pixel
      is written and nothing is posted. Otherwise width and height are cut to
      16 bits, the rectangle they span is painted red row by row (row `y`
      starts `y * stride` pixels into the buffer), and the buffer is posted. */
  method FillWindow(window: Option<NativeWindow>, bits: array<bv32>, stride: nat) returns (posted: bool)
    requires window.Some? && window.value.lockStatus >= 0 ==>
      ToUint16(window.value.width) <= stride
      && ToUint16(window.value.height) * stride <= bits.Length
    modifies bits
    ensures posted <==> window.Some? && window.value.lockStatus >= 0
    ensures !posted ==> bits[..] == old(bits[..])
    ensures posted ==>
      bits[..] == Filled(old(bits[..]), ToUint16(window.value.width), ToUint16(window.value.height), stride)
  {
    if window.None? {
      return false;
    }
    var winW := ToUint16(window.value.width);
    var winH := ToUint16(window.value.height);
    if window.value.lockStatus < 0 {
      return false;
    }
    ghost var before := bits[..];
    FilledNoRows(before, winW, stride);
    for y := 0 to winH
      invariant bits[..] == Filled(before, winW, y, stride)
    {
      // The row starts `y * stride * 4` bytes, that is `y * stride` pixels, into the buffer.
      var row := y * stride;
      ghost var rowStart := bits[..];
      PaintSpanEmpty(rowStart, row);
      for x := 0 to winW
        invariant bits[..] == PaintSpan(rowStart, row, x)
      {
        RowInside(y, x, winH, stride);
        PaintSpanStep(rowStart, row, x);
        bits[row + x] := Red;
      }
      FilledNextRow(before, winW, y, stride);
    }
    posted := true;
  }
}
