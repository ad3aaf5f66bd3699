/**
 * The pre-processing step of ImageClassifier (`convertBitmapToByteBuffer`):
 * an `inputSize x inputSize` grid of packed ARGB pixels, read row by row, is
 * written into a byte buffer three channels per pixel (red, green, blue), as
 * one raw byte per channel for a quantized model and as one 4-byte float per
 * channel for a float model.
 */
module TensorEncoder {

  const BATCH_SIZE: nat := 1
  const PIXEL_SIZE: nat := 3
  const IMAGE_MEAN: int := 128
  const IMAGE_STD: real := 120.0

  /** The largest Java `int`; the buffer sizes are computed in `int` arithmetic. */
  const INT_MAX: int := 0x7fff_ffff

  /**
   * The platform's `ByteBuffer.putFloat` after `order(ByteOrder.nativeOrder())`:
   * the four bytes, in native byte order, of the single-precision value nearest
   * to a real number.
   */
  type FloatBytes = f: real -> seq<bv8> | forall x :: |f(x)| == 4 witness (x: real) => [0, 0, 0, 0]

  /** `(val >> 16) & 0xFF` of a packed ARGB pixel. */
  function Red(val: bv32): bv8 {
    ((val >> 16) & 0xFF) as bv8
  }

  /** `(val >> 8) & 0xFF` of a packed ARGB pixel. */
  function Green(val: bv32): bv8 {
    ((val >> 8) & 0xFF) as bv8
  }

  /** `val & 0xFF` of a packed ARGB pixel. */
  function Blue(val: bv32): bv8 {
    (val & 0xFF) as bv8
  }

  /** An Android color int: alpha, red, green and blue from the highest byte down. */
  function PackArgb(a: bv8, r: bv8, g: bv8, b: bv8): bv32 {
    (a as bv32 << 24) | (r as bv32 << 16) | (g as bv32 << 8) | (b as bv32)
  }

  /** The channel extractors recover the red, green and blue of a packed color, whatever its alpha. */
  lemma ChannelsOfPackedPixel(a: bv8, r: bv8, g: bv8, b: bv8)
    ensures Red(PackArgb(a, r, g, b)) == r
    ensures Green(PackArgb(a, r, g, b)) == g
    ensures Blue(PackArgb(a, r, g, b)) == b
  {
  }

  /** `(channel - IMAGE_MEAN) / IMAGE_STD`, the value a float model receives for one channel. */
  function Normalized(channel: bv8): (x: real)
    ensures -128.0 / 120.0 <= x <= 127.0 / 120.0
  {
    ((channel as int) - IMAGE_MEAN) as real / IMAGE_STD
  }

  /** Bytes written per pixel: one per channel when quantized, four per channel otherwise. */
  function BytesPerPixel(quant: bool): nat {
    if quant then PIXEL_SIZE else 4 * PIXEL_SIZE
  }

  /** The capacity allocated for the buffer: room for every pixel's bytes. */
  function BufferSize(inputSize: nat, quant: bool): (size: nat)
    ensures size == inputSize * inputSize * BytesPerPixel(quant)
  {
    if quant then BATCH_SIZE * inputSize * inputSize * PIXEL_SIZE
    else 4 * BATCH_SIZE * inputSize * inputSize * PIXEL_SIZE
  }

  /** The bytes one pixel contributes, red then green then blue. */
  function PixelBytes(quant: bool, putFloat: FloatBytes, val: bv32): (b: seq<bv8>)
    ensures |b| == BytesPerPixel(quant)
  {
    if quant then [Red(val), Green(val), Blue(val)]
    else putFloat(Normalized(Red(val))) + putFloat(Normalized(Green(val))) + putFloat(Normalized(Blue(val)))
  }

  /** The whole buffer: the pixels' bytes in pixel order. */
  function Encode(quant: bool, putFloat: FloatBytes, pixels: seq<bv32>): seq<bv8>
  {
    if pixels == [] then []
    else Encode(quant, putFloat, pixels[..|pixels| - 1]) + PixelBytes(quant, putFloat, pixels[|pixels| - 1])
  }

  /** The encoding has a fixed number of bytes per pixel. */
  lemma {:induction false} EncodeLength(quant: bool, putFloat: FloatBytes, pixels: seq<bv32>)
    ensures |Encode(quant, putFloat, pixels)| == |pixels| * BytesPerPixel(quant)
  {
    if pixels != [] {
      var init := pixels[..|pixels| - 1];
      EncodeLength(quant, putFloat, init);
      NextRow(|init|, BytesPerPixel(quant));
    }
  }

  /** Each pixel's bytes sit at a fixed offset: pixel `p` occupies bytes `w*p .. w*p + w`. */
  lemma {:induction false} EncodeSlice(quant: bool, putFloat: FloatBytes, pixels: seq<bv32>, p: nat)
    requires p < |pixels|
    ensures p * BytesPerPixel(quant) + BytesPerPixel(quant) <= |Encode(quant, putFloat, pixels)|
    ensures Encode(quant, putFloat, pixels)[p * BytesPerPixel(quant) .. p * BytesPerPixel(quant) + BytesPerPixel(quant)]
            == PixelBytes(quant, putFloat, pixels[p])
  {
    var w := BytesPerPixel(quant);
    var init := pixels[..|pixels| - 1];
    var head := Encode(quant, putFloat, init);
    var last := PixelBytes(quant, putFloat, pixels[|pixels| - 1]);
    var e := Encode(quant, putFloat, pixels);
    assert e == head + last;
    EncodeLength(quant, putFloat, init);
    assert |head| == |init| * w;
    if p < |init| {
      EncodeSlice(quant, putFloat, init, p);
      assert init[p] == pixels[p];
      NextRow(p, w);
      MulMonotone(p + 1, |init|, w);
      assert p * w + w <= |head|;
      assert e[p * w .. p * w + w] == head[p * w .. p * w + w];
    } else {
      assert p * w == |head|;
      assert e[p * w .. p * w + w] == last;
    }
  }

  /** After the bytes of the first `n` pixels there is room for the bytes of pixel `n`. */
  lemma EncodeRoom(quant: bool, putFloat: FloatBytes, pixels: seq<bv32>, n: nat)
    requires n < |pixels|
    ensures |Encode(quant, putFloat, pixels[..n])| + BytesPerPixel(quant) <= |Encode(quant, putFloat, pixels)|
  {
    EncodeLength(quant, putFloat, pixels[..n]);
    EncodeLength(quant, putFloat, pixels);
    NextRow(n, BytesPerPixel(quant));
    MulMonotone(n + 1, |pixels|, BytesPerPixel(quant));
  }

  /** Encoding one more pixel appends that pixel's bytes. */
  lemma EncodeOneMore(quant: bool, putFloat: FloatBytes, pixels: seq<bv32>, n: nat)
    requires n < |pixels|
    ensures Encode(quant, putFloat, pixels[..n + 1]) == Encode(quant, putFloat, pixels[..n]) + PixelBytes(quant, putFloat, pixels[n])
  {
    assert pixels[..n + 1][..n] == pixels[..n];
  }

  /** The buffer is exactly as large as its capacity: `inputSize * inputSize` pixels fill it. */
  lemma EncodeFillsBuffer(inputSize: nat, quant: bool, putFloat: FloatBytes, pixels: seq<bv32>)
    requires |pixels| == inputSize * inputSize
    ensures |Encode(quant, putFloat, pixels)| == BufferSize(inputSize, quant)
  {
    EncodeLength(quant, putFloat, pixels);
  }

  /** For a 224 x 224 image the buffer holds 150528 bytes quantized and 602112 bytes as floats. */
  lemma BufferSizesFor224()
    ensures BufferSize(224, true) == 150528
    ensures BufferSize(224, false) == 602112
  {
  }

  /** Row-major position `i * n + j` of a cell of an `n x n` grid lies inside the grid. */
  lemma RowMajorInBounds(i: nat, j: nat, n: nat)
    requires i < n && j < n
    ensures i * n + j < n * n
  {
    assert i * n + j < i * n + n == (i + 1) * n <= n * n;
  }

  /** The row after row `i` starts `n` cells later. */
  lemma NextRow(i: nat, n: nat)
    ensures (i + 1) * n == i * n + n
  {
  }

  /** Multiplying by the same number keeps the order. */
  lemma MulMonotone(a: nat, b: nat, w: nat)
    requires a <= b
    ensures a * w <= b * w
  {
  }

  /**
   * Quantized layout: the pixel in row `i`, column `j` is pixel `p = i * n + j`,
   * and bytes `3p`, `3p + 1`, `3p + 2` are its red, green and blue channels.
   */
  lemma QuantizedLayout(n: nat, putFloat: FloatBytes, pixels: seq<bv32>, i: nat, j: nat)
    requires |pixels| == n * n && i < n && j < n
    ensures var p := i * n + j;
            p < |pixels| && 3 * p + 2 < |Encode(true, putFloat, pixels)|
            && Encode(true, putFloat, pixels)[3 * p] == Red(pixels[p])
            && Encode(true, putFloat, pixels)[3 * p + 1] == Green(pixels[p])
            && Encode(true, putFloat, pixels)[3 * p + 2] == Blue(pixels[p])
  {
    var p := i * n + j;
    RowMajorInBounds(i, j, n);
    EncodeSlice(true, putFloat, pixels, p);
    assert p * BytesPerPixel(true) == 3 * p;
  }

  /**
   * Float layout: bytes `12p .. 12p + 12` of pixel `p` are the platform float
   * encodings of its normalised red, green and blue channels, four bytes each.
   */
  lemma FloatLayout(putFloat: FloatBytes, pixels: seq<bv32>, p: nat)
    requires p < |pixels|
    ensures 12 * p + 12 <= |Encode(false, putFloat, pixels)|
    ensures Encode(false, putFloat, pixels)[12 * p .. 12 * p + 4] == putFloat(Normalized(Red(pixels[p])))
    ensures Encode(false, putFloat, pixels)[12 * p + 4 .. 12 * p + 8] == putFloat(Normalized(Green(pixels[p])))
    ensures Encode(false, putFloat, pixels)[12 * p + 8 .. 12 * p + 12] == putFloat(Normalized(Blue(pixels[p])))
  {
    EncodeSlice(false, putFloat, pixels, p);
    assert p * BytesPerPixel(false) == 12 * p;
    SplitThree(Encode(false, putFloat, pixels), 12 * p,
      putFloat(Normalized(Red(pixels[p]))), putFloat(Normalized(Green(pixels[p]))), putFloat(Normalized(Blue(pixels[p]))));
  }

  /** A slice made of three 4-byte parts splits back into those parts. */
  lemma SplitThree(e: seq<bv8>, lo: nat, a: seq<bv8>, b: seq<bv8>, c: seq<bv8>)
    requires |a| == |b| == |c| == 4 && lo + 12 <= |e|
    requires e[lo .. lo + 12] == a + b + c
    ensures e[lo .. lo + 4] == a && e[lo + 4 .. lo + 8] == b && e[lo + 8 .. lo + 12] == c
  {
    var s := e[lo .. lo + 12];
    assert s[..4] == a && s[4..8] == b && s[8..] == c;
    assert e[lo .. lo + 4] == s[..4];
    assert e[lo + 4 .. lo + 8] == s[4..8] by {
      forall k | 4 <= k < 8 ensures e[lo + k] == s[k] { }
    }
    assert e[lo + 8 .. lo + 12] == s[8..];
  }

  /** `ByteBuffer.put` / `putFloat` at the current position: writes `bytes` and advances the position past them. */
  method Put(buffer: array<bv8>, position: nat, bytes: seq<bv8>) returns (next: nat)
    requires position + |bytes| <= buffer.Length
    modifies buffer
    ensures next == position + |bytes|
    ensures buffer[..next] == old(buffer[..position]) + bytes
    ensures forall k :: next <= k < buffer.Length ==> buffer[k] == old(buffer[k])
  {
    var k := 0;
    while k < |bytes|
      invariant 0 <= k <= |bytes|
      invariant buffer[..position + k] == old(buffer[..position]) + bytes[..k]
      invariant forall m :: position + k <= m < buffer.Length ==> buffer[m] == old(buffer[m])
    {
      buffer[position + k] := bytes[k];
      assert buffer[..position + k + 1] == buffer[..position + k] + [bytes[k]];
      assert bytes[..k + 1] == bytes[..k] + [bytes[k]];
      k := k + 1;
    }
    assert bytes[..k] == bytes;
    next := position + k;
  }

  /** The body of the pixel loop: the three channels of one pixel, red first, in the model's format. */
  method PutPixel(buffer: array<bv8>, position: nat, quant: bool, putFloat: FloatBytes, val: bv32) returns (next: nat)
    requires position + BytesPerPixel(quant) <= buffer.Length
    modifies buffer
    ensures next == position + BytesPerPixel(quant)
    ensures buffer[..next] == old(buffer[..position]) + PixelBytes(quant, putFloat, val)
    ensures forall k :: next <= k < buffer.Length ==> buffer[k] == old(buffer[k])
  {
    if quant {
      next := Put(buffer, position, [Red(val)]);
      next := Put(buffer, next, [Green(val)]);
      next := Put(buffer, next, [Blue(val)]);
    } else {
      next := Put(buffer, position, putFloat(Normalized(Red(val))));
      next := Put(buffer, next, putFloat(Normalized(Green(val))));
      next := Put(buffer, next, putFloat(Normalized(Blue(val))));
    }
  }

  /**
   * `convertBitmapToByteBuffer`: allocates the buffer for the model's mode and
   * walks the pixels row by row, writing each pixel's channels.
   * `intValues` is what `Bitmap.getPixels` delivers for an `inputSize x inputSize` bitmap.
   */
  method ConvertBitmapToByteBuffer(inputSize: nat, quant: bool, putFloat: FloatBytes, intValues: seq<bv32>)
    returns (byteBuffer: array<bv8>)
    requires |intValues| == inputSize * inputSize
    requires BufferSize(inputSize, quant) <= INT_MAX
    ensures byteBuffer.Length == BufferSize(inputSize, quant)
    ensures byteBuffer[..] == Encode(quant, putFloat, intValues)
  {
    if quant {
      byteBuffer := new bv8[BATCH_SIZE * inputSize * inputSize * PIXEL_SIZE];
    } else {
      byteBuffer := new bv8[4 * BATCH_SIZE * inputSize * inputSize * PIXEL_SIZE];
    }
    EncodeFillsBuffer(inputSize, quant, putFloat, intValues);
    var position := 0;
    var pixel := 0;
    for i := 0 to inputSize
      invariant pixel == i * inputSize <= |intValues|
      invariant position <= byteBuffer.Length
      invariant byteBuffer[..position] == Encode(quant, putFloat, intValues[..pixel])
    {
      ghost var rowStart := pixel;
      for j := 0 to inputSize
        invariant pixel == rowStart + j <= |intValues|
        invariant position <= byteBuffer.Length
        invariant byteBuffer[..position] == Encode(quant, putFloat, intValues[..pixel])
      {
        RowMajorInBounds(i, j, inputSize);
        EncodeRoom(quant, putFloat, intValues, pixel);
        var val := intValues[pixel];
        EncodeOneMore(quant, putFloat, intValues, pixel);
        ghost var before := byteBuffer[..position];
        pixel := pixel + 1;
        position := PutPixel(byteBuffer, position, quant, putFloat, val);
        assert byteBuffer[..position] == before + PixelBytes(quant, putFloat, val);
      }
      NextRow(i, inputSize);
      MulMonotone(i + 1, inputSize, inputSize);
    }
    EncodeLength(quant, putFloat, intValues);
    assert intValues[..pixel] == intValues;
    assert byteBuffer[..] == byteBuffer[..position];
  }
}
