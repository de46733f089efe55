/** getPixels and dist (main.go:40-73): the flattening of an image into a
    row-major list of colour samples and the sum of per-pixel costs over two
    such lists. The per-pixel cost (colorful's DistanceLab) is the parameter
    `cost`: floating-point colour science is not modelled, and sums are real. */
module Distance {
  import opened Colors
  import opened Images

  datatype DistError = DimensionMismatch(wa: nat, ha: nat, wb: nat, hb: nat)

  datatype Result<T> = Ok(value: T) | Err(error: DistError)

  /** The samples getPixels returns: pixel (x, y) of a w×h image at index y*w + x. */
  function PixelsOf(img: Image): seq<Sample>
  {
    Grid(img.width, img.height, Sampler(img))
  }

  function Sampler(img: Image): (nat, nat) -> Sample
  {
    (x: nat, y: nat) => SampleOf(At(img, x, y))
  }

  lemma PixelsOfAt(img: Image, x: nat, y: nat)
    requires x < img.width && y < img.height
    ensures |PixelsOf(img)| == img.width * img.height
    ensures y * img.width + x < |PixelsOf(img)|
    ensures PixelsOf(img)[y * img.width + x] == SampleOf(At(img, x, y))
  {
    GridAt(img.width, img.height, Sampler(img), x, y);
  }

  /** getPixels: the width and height from Bounds().Max, and every pixel's
      sample, appended row by row. It has no failing path. */
  method GetPixels(img: Image) returns (width: nat, height: nat, pixels: seq<Sample>)
    ensures width == img.width && height == img.height
    ensures pixels == PixelsOf(img)
  {
    width, height := img.width, img.height;
    ghost var f := Sampler(img);
    pixels := [];
    for y := 0 to height
      invariant pixels == Grid(width, y, f)
    {
      for x := 0 to width
        invariant pixels == Grid(width, y, f) + Row(width, y, f)[..x]
      {
        pixels := pixels + [SampleOf(At(img, x, y))];
      }
    }
  }

  /** The running total of dist: costs of aligned pairs added left to right. */
  function SumCosts(xs: seq<Sample>, ys: seq<Sample>, cost: (Sample, Sample) -> real): real
    requires |xs| == |ys|
  {
    if |xs| == 0 then 0.0
    else SumCosts(xs[..|xs| - 1], ys[..|ys| - 1], cost) + cost(xs[|xs| - 1], ys[|ys| - 1])
  }

  /** dist(a, b): a dimension mismatch is an error; otherwise the sum of the
      per-pixel costs of a's samples against b's. */
  function Dist(a: Image, b: Image, cost: (Sample, Sample) -> real): Result<real>
  {
    if a.width != b.width || a.height != b.height then
      Err(DimensionMismatch(a.width, a.height, b.width, b.height))
    else
      Ok(SumCosts(PixelsOf(a), PixelsOf(b), cost))
  }

  method ComputeDist(a: Image, b: Image, cost: (Sample, Sample) -> real) returns (d: Result<real>)
    ensures d == Dist(a, b, cost)
  {
    var wa, ha, psa := GetPixels(a);
    var wb, hb, psb := GetPixels(b);
    if wa != wb || ha != hb {
      return Err(DimensionMismatch(wa, ha, wb, hb));
    }
    var dist := 0.0;
    for i := 0 to |psa|
      invariant dist == SumCosts(psa[..i], psb[..i], cost)
    {
      assert psa[..i + 1][..i] == psa[..i] && psb[..i + 1][..i] == psb[..i];
      dist := dist + cost(psa[i], psb[i]);
    }
    assert psa[..|psa|] == psa && psb[..|psb|] == psb;
    return Ok(dist);
  }

  /** dist fails exactly when the widths or the heights differ. */
  lemma DistFailsIffMismatch(a: Image, b: Image, cost: (Sample, Sample) -> real)
    ensures Dist(a, b, cost).Err? <==> !SameSize(a, b)
    ensures Dist(a, b, cost).Err? ==>
      Dist(a, b, cost).error == DimensionMismatch(a.width, a.height, b.width, b.height)
  {
  }

  lemma {:induction false} SumCostsSelf(xs: seq<Sample>, cost: (Sample, Sample) -> real)
    requires forall c: Sample :: cost(c, c) == 0.0
    ensures SumCosts(xs, xs, cost) == 0.0
  {
    if |xs| > 0 {
      SumCostsSelf(xs[..|xs| - 1], cost);
    }
  }

  /** An image is at distance 0 from itself when every colour is at cost 0 from itself. */
  lemma DistSelfIsZero(a: Image, cost: (Sample, Sample) -> real)
    requires forall c: Sample :: cost(c, c) == 0.0
    ensures Dist(a, a, cost) == Ok(0.0)
  {
    SumCostsSelf(PixelsOf(a), cost);
  }

  /** Two empty images of one size are at distance 0, whatever the cost. */
  lemma DistEmptyIsZero(a: Image, b: Image, cost: (Sample, Sample) -> real)
    requires SameSize(a, b) && a.width * a.height == 0
    ensures Dist(a, b, cost) == Ok(0.0)
  {
  }

  lemma {:induction false} SumCostsNonNegative(xs: seq<Sample>, ys: seq<Sample>, cost: (Sample, Sample) -> real)
    requires |xs| == |ys|
    requires forall c: Sample, c': Sample :: cost(c, c') >= 0.0
    ensures SumCosts(xs, ys, cost) >= 0.0
  {
    if |xs| > 0 {
      SumCostsNonNegative(xs[..|xs| - 1], ys[..|ys| - 1], cost);
    }
  }

  lemma {:induction false} SumCostsSwap(xs: seq<Sample>, ys: seq<Sample>, cost: (Sample, Sample) -> real)
    requires |xs| == |ys|
    requires forall c: Sample, c': Sample :: cost(c, c') == cost(c', c)
    ensures SumCosts(xs, ys, cost) == SumCosts(ys, xs, cost)
  {
    if |xs| > 0 {
      SumCostsSwap(xs[..|xs| - 1], ys[..|ys| - 1], cost);
    }
  }

  /** With a symmetric, non-negative per-pixel cost (as a colour distance is),
      dist is symmetric and never negative. */
  lemma DistSymmetric(a: Image, b: Image, cost: (Sample, Sample) -> real)
    requires forall c: Sample, c': Sample :: cost(c, c') == cost(c', c)
    requires forall c: Sample, c': Sample :: cost(c, c') >= 0.0
    ensures Dist(a, b, cost).Ok? <==> Dist(b, a, cost).Ok?
    ensures Dist(a, b, cost).Ok? ==>
      Dist(a, b, cost).value == Dist(b, a, cost).value && Dist(a, b, cost).value >= 0.0
  {
    if SameSize(a, b) {
      SumCostsSwap(PixelsOf(a), PixelsOf(b), cost);
      SumCostsNonNegative(PixelsOf(a), PixelsOf(b), cost);
    }
  }
}
