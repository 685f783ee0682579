/**
 The down-sampling factor chosen before decoding a JPEG, with exact integer
 arithmetic in place of the `Float` divisions of `calculateInSampleSize`.
 */
module ImageUtils {

  /**
   A ratio rounded to the nearest integer, halves rounded up: the integer
   `r` with r - 1/2 <= dimension / maxSize < r + 1/2.
   */
  function RoundRatio(dimension: int, maxSize: int): (r: int)
    requires maxSize > 0
    ensures 2 * maxSize * r <= 2 * dimension + maxSize < 2 * maxSize * (r + 1)
    ensures dimension >= 0 ==> r >= 0
    ensures dimension > maxSize ==> r >= 1
  {
    var r := (2 * dimension + maxSize) / (2 * maxSize);
    assert 2 * maxSize * r <= 2 * dimension + maxSize < 2 * maxSize * (r + 1);
    r
  }

  /** The factor the loop starts from: the smaller of the two rounded ratios. */
  function StartFactor(height: int, width: int, maxSize: int): int
    requires maxSize > 0
  {
    var heightRatio := RoundRatio(height, maxSize);
    var widthRatio := RoundRatio(width, maxSize);
    if heightRatio < widthRatio then heightRatio else widthRatio
  }

  /**
   The loop condition: the image sampled down by `s` still has more than twice
   `maxSize * maxSize` pixels. For s != 0 this is `width * height / (s * s)` compared
   with the cap; for s == 0 the floating-point quotient is +Infinity (more than the
   cap) for a positive pixel count and NaN or -Infinity (not more) otherwise, which
   is the same integer comparison.
   */
  predicate TooManyPixels(height: int, width: int, maxSize: int, s: int)
  {
    Exceeds(width * height, maxSize * maxSize * 2, s)
  }

  /** `totalPixels` divided by `s * s` is more than `cap`. */
  predicate Exceeds(totalPixels: int, cap: int, s: int)
  {
    totalPixels > cap * (s * s)
  }

  /** While the loop runs, the factor stays below the pixel count, which bounds the loop. */
  lemma FactorBelowPixels(totalPixels: int, maxSize: int, s: int)
    requires s >= 0 && maxSize > 0
    requires Exceeds(totalPixels, maxSize * maxSize * 2, s)
    ensures s < totalPixels
  {
    assert s <= s * s by {
      if s > 0 {
        assert s * s == s * (s - 1) + s;
        assert s * (s - 1) >= 0;
      }
    }
    assert maxSize * maxSize >= 1;
    assert maxSize * maxSize * 2 * (s * s) >= s * s;
  }

  /** An image that needs scaling and has a positive pixel count has positive dimensions. */
  lemma PositiveDimensions(height: int, width: int, maxSize: int)
    requires maxSize > 0 && (height > maxSize || width > maxSize)
    requires width * height > 0
    ensures height > 0 && width > 0
  {
  }

  /** An image within `maxSize` in both dimensions needs no sampling. */
  lemma SmallImageBound(height: int, width: int, maxSize: int)
    requires 0 < height <= maxSize && 0 < width <= maxSize
    ensures !TooManyPixels(height, width, maxSize, 1)
  {
    assert width * height <= maxSize * height;
    assert maxSize * height <= maxSize * maxSize;
  }

  /**
   The loop of `calculateInSampleSize`: raise `inSampleSize` from `start` until `totalPixels`
   divided by its square is no longer more than `cap`. Only positive pixel counts
   make the loop run, and then it runs from a non-negative start.
   */
  method RaiseFactor(totalPixels: int, maxSize: int, start: int) returns (inSampleSize: int)
    requires maxSize > 0
    requires totalPixels > 0 ==> start >= 0
    ensures start <= inSampleSize
    ensures !Exceeds(totalPixels, maxSize * maxSize * 2, inSampleSize)
    ensures forall k :: start <= k < inSampleSize ==> Exceeds(totalPixels, maxSize * maxSize * 2, k)
    ensures totalPixels > 0 ==> inSampleSize >= 1
  {
    var totalReqPixelsCap := maxSize * maxSize * 2;
    inSampleSize := start;
    while Exceeds(totalPixels, totalReqPixelsCap, inSampleSize)
      invariant start <= inSampleSize
      invariant totalPixels > 0 ==> inSampleSize >= 0
      invariant forall k :: start <= k < inSampleSize ==> Exceeds(totalPixels, totalReqPixelsCap, k)
      decreases totalPixels - inSampleSize
    {
      FactorBelowPixels(totalPixels, maxSize, inSampleSize);
      inSampleSize := inSampleSize + 1;
    }
    if totalPixels > 0 {
      assert inSampleSize != 0 by {
        assert Exceeds(totalPixels, totalReqPixelsCap, 0);
      }
    }
  }

  /**
   The sample size for an image of `height` x `width` pixels that should fit
   `maxSize`: 1 when both dimensions fit, otherwise the least factor, starting
   from the smaller rounded ratio, at which at most twice `maxSize * maxSize`
   pixels remain.
   */
  method CalculateInSampleSize(height: int, width: int, maxSize: int) returns (inSampleSize: int)
    requires maxSize > 0
    ensures height <= maxSize && width <= maxSize ==> inSampleSize == 1
    ensures height > maxSize || width > maxSize ==>
              && inSampleSize >= StartFactor(height, width, maxSize)
              && !TooManyPixels(height, width, maxSize, inSampleSize)
              && forall k :: StartFactor(height, width, maxSize) <= k < inSampleSize
                             ==> TooManyPixels(height, width, maxSize, k)
    ensures height > 0 && width > 0 ==>
              && inSampleSize >= 1
              && !TooManyPixels(height, width, maxSize, inSampleSize)
  {
    inSampleSize := 1;
    if height > maxSize || width > maxSize {
      var heightRatio := RoundRatio(height, maxSize);
      var widthRatio := RoundRatio(width, maxSize);
      inSampleSize := if heightRatio < widthRatio then heightRatio else widthRatio;
      var totalPixels := width * height;
      if totalPixels > 0 {
        PositiveDimensions(height, width, maxSize);
      }
      inSampleSize := RaiseFactor(totalPixels, maxSize, inSampleSize);
      if height > 0 && width > 0 {
        assert totalPixels > 0;
      }
    } else if height > 0 && width > 0 {
      SmallImageBound(height, width, maxSize);
    }
  }
}
