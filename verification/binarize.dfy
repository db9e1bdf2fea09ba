/** Binarisation of the decoded raster (the first loop of
    `simpleShapeDetection`, app.js). */
module Binarize {

  /** One channel sample of a canvas `ImageData` buffer. */
  newtype byte = x: int | 0 <= x < 256

  /** A decoded raster: `width * height` pixels, row-major, four bytes per
      pixel in the order red, green, blue, alpha. */
  datatype ImageData = ImageData(width: nat, height: nat, data: seq<byte>)

  /** The buffer length a canvas guarantees for its `ImageData`. */
  predicate WellFormed(img: ImageData)
  {
    |img.data| == 4 * (img.width * img.height)
  }

  /** A pixel is foreground when the mean of its red, green and blue samples
      is below 128. The source divides by 3 in floating point; on whole
      numbers this is the same as comparing the channel sum with 384. */
  function IsDark(r: byte, g: byte, b: byte): (dark: bool)
    ensures dark <==> (r as real + g as real + b as real) / 3.0 < 128.0
  {
    r as int + g as int + b as int < 384
  }

  /** The value the binary grid holds for pixel `i`: 1 for foreground, 0 for
      background. Only the first three samples of the pixel are read. */
  function BinaryValue(data: seq<byte>, i: nat): (v: int)
    requires 4 * i + 3 < |data|
    ensures v == 1 || v == 0
    ensures v == 1 <==> data[4 * i] as int + data[4 * i + 1] as int + data[4 * i + 2] as int < 384
  {
    if IsDark(data[4 * i], data[4 * i + 1], data[4 * i + 2]) then 1 else 0
  }

  /** The alpha sample (offset 3) never affects a pixel's value. */
  lemma AlphaIgnored(data: seq<byte>, i: nat, alpha: byte)
    requires 4 * i + 3 < |data|
    ensures BinaryValue(data[4 * i + 3 := alpha], i) == BinaryValue(data, i)
  {
  }

  /** Fills a fresh `Uint8Array` of `width * height` entries, pixel by pixel
      with stride 4. */
  method Binarise(img: ImageData) returns (binary: array<int>)
    requires WellFormed(img)
    ensures fresh(binary)
    ensures binary.Length == img.width * img.height
    ensures forall i :: 0 <= i < binary.Length ==>
      (binary[i] == 1 <==> img.data[4 * i] as int + img.data[4 * i + 1] as int + img.data[4 * i + 2] as int < 384)
    ensures forall i :: 0 <= i < binary.Length ==> binary[i] == BinaryValue(img.data, i)
  {
    var n := img.width * img.height;
    binary := new int[n];
    var i := 0;
    while i < n
      invariant 0 <= i <= n
      invariant forall k :: 0 <= k < i ==> binary[k] == BinaryValue(img.data, k)
    {
      var idx := i * 4;
      binary[i] := if IsDark(img.data[idx], img.data[idx + 1], img.data[idx + 2]) then 1 else 0;
      i := i + 1;
    }
  }
}
