/** noise and mutateAndEval (main.go:22-34, 84-106). The random draws are
    parameters: `coin(x, y)` is the rand.Float32() that noise draws for pixel
    (x, y), `draw(x, y)` the rand.Float64() that mutateAndEval draws for it.
    The blur and unsharp-mask pipeline is the opaque transform `smooth`. */
module Mutation {
  import opened Colors
  import opened Images
  import opened Distance

  /** The pixel noise picks: black when its draw is below 0.5, else white. */
  function NoisePixel(coin: (nat, nat) -> real): (nat, nat) -> Pixel
  {
    (x: nat, y: nat) => if coin(x, y) < 0.5 then Black else White
  }

  function NoiseImage(w: nat, h: nat, coin: (nat, nat) -> real): Image
  {
    FromGrid(w, h, NoisePixel(coin))
  }

  /** noise(w, h): a w×h image, each pixel black exactly when its draw is below
      0.5 and white otherwise. */
  lemma NoiseIsBlackAndWhite(w: nat, h: nat, coin: (nat, nat) -> real)
    ensures NoiseImage(w, h, coin).width == w && NoiseImage(w, h, coin).height == h
    ensures forall x: nat, y: nat | x < w && y < h ::
      BlackOrWhite(At(NoiseImage(w, h, coin), x, y)) &&
      (At(NoiseImage(w, h, coin), x, y) == Black <==> coin(x, y) < 0.5)
  {
  }

  /** noise fills the buffer column by column (x outer, y inner). */
  method Noise(w: nat, h: nat, coin: (nat, nat) -> real) returns (img: Image)
    ensures img == NoiseImage(w, h, coin)
  {
    var canvas := new Canvas(w, h);
    for x := 0 to w
      invariant canvas.Valid()
      invariant forall x': int, y': int | x' >= x || y' >= h || x' < 0 || y' < 0 ::
        canvas.RGBAAt(x', y') == Transparent
      invariant forall x': nat, y': nat | x' < x && y' < h :: canvas.RGBAAt(x', y') == NoisePixel(coin)(x', y')
    {
      for y := 0 to h
        invariant forall x': int, y': int | x' > x || (x' == x && y' >= y) || y' >= h || x' < 0 || y' < 0 ::
          canvas.RGBAAt(x', y') == Transparent
        invariant forall x': nat, y': nat | (x' < x || (x' == x && y' < y)) && y' < h ::
          canvas.RGBAAt(x', y') == NoisePixel(coin)(x', y')
      {
        var color := White;
        if coin(x, y) < 0.5 {
          color := Black;
        }
        canvas.Set(x, y, color);
      }
    }
    img := canvas.AsImage();
    SamePixels(img, NoiseImage(w, h, coin));
  }

  /** The pixel mutateAndEval stores at (x, y): a copy of the base pixel when
      the draw exceeds the rate, its flip otherwise. */
  function MutatedPixel(base: Image, chg: real, draw: (nat, nat) -> real): (nat, nat) -> Pixel
  {
    (x: nat, y: nat) => if draw(x, y) > chg then RgbaModel(At(base, x, y)) else Flip(At(base, x, y))
  }

  /** The buffer mutateAndEval returns: the goal's size, filled from base. */
  function Mutated(goal: Image, base: Image, chg: real, draw: (nat, nat) -> real): Image
  {
    FromGrid(goal.width, goal.height, MutatedPixel(base, chg, draw))
  }

  /** Each pixel of the mutation is the base pixel converted to RGBA (the base
      pixel itself when it is RGBA) when its draw is greater than the rate;
      otherwise (a draw equal to the rate included) it is white if the base
      pixel is exactly black and black for any other colour. */
  lemma MutatedAt(goal: Image, base: Image, chg: real, draw: (nat, nat) -> real, x: nat, y: nat)
    requires x < goal.width && y < goal.height
    ensures SameSize(Mutated(goal, base, chg, draw), goal)
    ensures draw(x, y) > chg ==>
      At(Mutated(goal, base, chg, draw), x, y) == RgbaModel(At(base, x, y))
    ensures draw(x, y) > chg && At(base, x, y).Rgba? ==>
      At(Mutated(goal, base, chg, draw), x, y) == At(base, x, y)
    ensures draw(x, y) <= chg && At(base, x, y) == Black ==>
      At(Mutated(goal, base, chg, draw), x, y) == White
    ensures draw(x, y) <= chg && At(base, x, y) != Black ==>
      At(Mutated(goal, base, chg, draw), x, y) == Black
  {
  }

  /** The buffer holds only color.RGBA values, so nothing is lost when it is
      read back through At. */
  predicate RgbaOnly(img: Image)
  {
    forall x: nat, y: nat | x < img.width && y < img.height :: At(img, x, y).Rgba?
  }

  /** Every pixel is exactly black or exactly white, as in noise and every kept
      candidate. */
  predicate BlackAndWhite(img: Image)
  {
    forall x: nat, y: nat | x < img.width && y < img.height :: BlackOrWhite(At(img, x, y))
  }

  lemma NoiseIsRgbaOnly(w: nat, h: nat, coin: (nat, nat) -> real)
    ensures BlackAndWhite(NoiseImage(w, h, coin)) && RgbaOnly(NoiseImage(w, h, coin))
  {
  }

  /** When every draw exceeds the rate, the mutation of an RGBA image of the
      goal's size is that image. */
  lemma MutateNoneKeepsBase(goal: Image, base: Image, chg: real, draw: (nat, nat) -> real)
    requires SameSize(base, goal) && RgbaOnly(base)
    requires forall x: nat, y: nat | x < goal.width && y < goal.height :: draw(x, y) > chg
    ensures Mutated(goal, base, chg, draw) == base
  {
    var m := Mutated(goal, base, chg, draw);
    SamePixels(m, base);
  }

  /** When no draw exceeds the rate, every black pixel turns white and every
      white one black. */
  lemma MutateAllInverts(goal: Image, base: Image, chg: real, draw: (nat, nat) -> real)
    requires SameSize(base, goal) && BlackAndWhite(base)
    requires forall x: nat, y: nat | x < goal.width && y < goal.height :: draw(x, y) <= chg
    ensures SameSize(Mutated(goal, base, chg, draw), base)
    ensures forall x: nat, y: nat | x < base.width && y < base.height ::
      At(Mutated(goal, base, chg, draw), x, y) != At(base, x, y) &&
      BlackOrWhite(At(Mutated(goal, base, chg, draw), x, y))
  {
  }

  /** Applying the same flip mask twice to a black-and-white image of the goal's
      size restores it. */
  lemma MutateTwiceRestores(goal: Image, base: Image, chg: real, draw: (nat, nat) -> real)
    requires SameSize(base, goal) && BlackAndWhite(base)
    ensures Mutated(goal, Mutated(goal, base, chg, draw), chg, draw) == base
  {
    var once := Mutated(goal, base, chg, draw);
    var twice := Mutated(goal, once, chg, draw);
    forall x: nat, y: nat | x < base.width && y < base.height
      ensures At(twice, x, y) == At(base, x, y)
    {
      var p := At(base, x, y);
      FlipInverts(p);
      assert At(once, x, y) == (if draw(x, y) > chg then p else Flip(p));
      assert At(twice, x, y) == (if draw(x, y) > chg then RgbaModel(At(once, x, y)) else Flip(At(once, x, y)));
    }
    SamePixels(twice, base);
  }

  /** The mutation of a black-and-white image is black and white, of the goal's size. */
  lemma MutateKeepsBlackAndWhite(goal: Image, base: Image, chg: real, draw: (nat, nat) -> real)
    requires SameSize(base, goal) && BlackAndWhite(base)
    ensures SameSize(Mutated(goal, base, chg, draw), goal)
    ensures BlackAndWhite(Mutated(goal, base, chg, draw))
  {
    var m := Mutated(goal, base, chg, draw);
    forall x: nat, y: nat | x < m.width && y < m.height
      ensures BlackOrWhite(At(m, x, y))
    {
      var p := At(base, x, y);
      assert BlackOrWhite(p);
      assert At(m, x, y) == (if draw(x, y) > chg then RgbaModel(p) else Flip(p));
    }
  }

  /** The fill loop of mutateAndEval, row by row (y outer, x inner), on a
      fresh buffer of the goal's size. The ghost `writes` lists the buffer
      indices set, in order: each cell once. */
  method FillMutation(canvas: Canvas, goal: Image, base: Image, chg: real, draw: (nat, nat) -> real)
    returns (ghost writes: seq<nat>)
    requires canvas.Valid() && canvas.width == goal.width && canvas.height == goal.height
    requires forall x: int, y: int :: canvas.RGBAAt(x, y) == Transparent
    modifies canvas.pix
    ensures canvas.AsImage() == Mutated(goal, base, chg, draw)
    ensures writes == seq(goal.width * goal.height, k => k)
  {
    var w, h := goal.width, goal.height;
    writes := [];
    for y := 0 to h
      invariant writes == seq(y * w, k => k)
      invariant forall x': int, y': int | y' >= y || x' >= w || x' < 0 || y' < 0 ::
        canvas.RGBAAt(x', y') == Transparent
      invariant forall x': nat, y': nat | y' < y && x' < w ::
        canvas.RGBAAt(x', y') == MutatedPixel(base, chg, draw)(x', y')
    {
      writes := FillRow(canvas, base, chg, draw, y, writes);
      assert y * w + w == (y + 1) * w;
    }
    SamePixels(canvas.AsImage(), Mutated(goal, base, chg, draw));
  }

  /** One pass of the inner loop of mutateAndEval: row y, left to right. The
      ghost `writes` is extended with the indices set in this row. */
  method FillRow(canvas: Canvas, base: Image, chg: real, draw: (nat, nat) -> real, y: nat,
                 ghost before: seq<nat>)
    returns (ghost writes: seq<nat>)
    requires canvas.Valid() && y < canvas.height
    requires before == seq(y * canvas.width, k => k)
    requires forall x': int, y': int | y' >= y || x' >= canvas.width || x' < 0 || y' < 0 ::
      canvas.RGBAAt(x', y') == Transparent
    requires forall x': nat, y': nat | y' < y && x' < canvas.width ::
      canvas.RGBAAt(x', y') == MutatedPixel(base, chg, draw)(x', y')
    modifies canvas.pix
    ensures writes == seq(y * canvas.width + canvas.width, k => k)
    ensures forall x': int, y': int | y' > y || x' >= canvas.width || x' < 0 || y' < 0 ::
      canvas.RGBAAt(x', y') == Transparent
    ensures forall x': nat, y': nat | y' <= y && x' < canvas.width ::
      canvas.RGBAAt(x', y') == MutatedPixel(base, chg, draw)(x', y')
  {
    var w := canvas.width;
    writes := before;
    for x := 0 to w
      invariant writes == seq(y * w + x, k => k)
      invariant forall x': int, y': int | y' > y || (y' == y && x' >= x) || x' >= w || x' < 0 || y' < 0 ::
        canvas.RGBAAt(x', y') == Transparent
      invariant forall x': nat, y': nat | (y' < y || (y' == y && x' < x)) && x' < w ::
        canvas.RGBAAt(x', y') == MutatedPixel(base, chg, draw)(x', y')
    {
      var color;
      if draw(x, y) > chg {
        color := At(base, x, y);
      } else if At(base, x, y) == Black {
        color := White;
      } else {
        color := Black;
      }
      canvas.Set(x, y, color);
      writes := writes + [y * w + x];
    }
  }

  /** mutateAndEval: fills a buffer of the goal's size from base, then scores
      the smoothed buffer against the goal. It returns the raw buffer, not the
      smoothed one, with the smoothed one's score; the score fails only as dist
      fails. */
  method MutateAndEval(goal: Image, base: Image, chg: real, draw: (nat, nat) -> real,
                       smooth: Image -> Image, cost: (Sample, Sample) -> real)
    returns (mutated: Image, d: Result<real>)
    ensures mutated == Mutated(goal, base, chg, draw)
    ensures d == Dist(smooth(mutated), goal, cost)
  {
    var canvas := new Canvas(goal.width, goal.height);
    ghost var writes := FillMutation(canvas, goal, base, chg, draw);
    mutated := canvas.AsImage();
    var blsh := smooth(mutated);
    d := ComputeDist(blsh, goal, cost);
  }
}
