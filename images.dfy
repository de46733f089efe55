/** Images as main.go uses them: a read-only image.Image (bounds and At) and the
    image.RGBA buffer that noise and mutateAndEval fill with Set. Every image
    here has its bounds' minimum at (0, 0), as image.Rect(0, 0, w, h) and the
    PNG decoder give, so Bounds().Max is its width and height. */
module Images {
  import opened Colors

  /** Row-major `w`×`h` layout: row y, then each x of it. */
  function Row<T>(w: nat, y: nat, f: (nat, nat) -> T): (r: seq<T>)
    ensures |r| == w
  {
    seq(w, x requires 0 <= x < w => f(x, y))
  }

  function Grid<T>(w: nat, h: nat, f: (nat, nat) -> T): (g: seq<T>)
    ensures |g| == w * h
  {
    if h == 0 then [] else Grid(w, h - 1, f) + Row(w, h - 1, f)
  }

  lemma IndexInBounds(w: nat, h: nat, x: nat, y: nat)
    requires x < w && y < h
    ensures y * w + x < w * h
  {
    assert (y + 1) * w <= h * w by {
      MulMonotone(y + 1, h, w);
    }
  }

  lemma MulMonotone(a: nat, b: nat, c: nat)
    requires a <= b
    ensures a * c <= b * c
  {
  }

  /** The row-major index y*w + x names the cell (x, y) and no other. */
  lemma IndexDivMod(w: nat, x: nat, y: nat)
    requires x < w
    ensures (y * w + x) / w == y && (y * w + x) % w == x
  {
    var k := y * w + x;
    var q, r := k / w, k % w;
    assert k == q * w + r && 0 <= r < w;
    if q < y {
      MulMonotone(q + 1, y, w);
    } else if q > y {
      MulMonotone(y + 1, q, w);
    }
  }

  /** Every index below w*h is the row-major index of a cell in bounds. */
  lemma CellOfIndex(w: nat, h: nat, k: nat)
    requires k < w * h
    ensures 0 < w && k % w < w && k / w < h && (k / w) * w + k % w == k
  {
    var q := k / w;
    if q >= h {
      MulMonotone(h, q, w);
    }
  }

  /** Cell (x, y) of a row-major grid holds f(x, y). */
  lemma {:induction false} GridAt<T>(w: nat, h: nat, f: (nat, nat) -> T, x: nat, y: nat)
    requires x < w && y < h
    ensures y * w + x < |Grid(w, h, f)| && Grid(w, h, f)[y * w + x] == f(x, y)
  {
    IndexInBounds(w, h, x, y);
    var prefix := Grid(w, h - 1, f);
    assert |prefix| == (h - 1) * w;
    if y < h - 1 {
      GridAt(w, h - 1, f, x, y);
      IndexInBounds(w, h - 1, x, y);
    } else {
      assert y * w + x == |prefix| + x;
    }
  }

  datatype Raster = Raster(width: nat, height: nat, pix: seq<Pixel>)

  /** An image.Image with bounds (0, 0)-(width, height); its pixels row-major. */
  type Image = img: Raster | |img.pix| == img.width * img.height
    witness Raster(0, 0, [])

  /** Image.At: the pixel at (x, y), and color.RGBA{} outside the bounds. */
  function At(img: Image, x: int, y: int): Pixel
  {
    if 0 <= x < img.width && 0 <= y < img.height then
      IndexInBounds(img.width, img.height, x, y);
      img.pix[y * img.width + x]
    else
      Transparent
  }

  predicate SameSize(a: Image, b: Image)
  {
    a.width == b.width && a.height == b.height
  }

  /** The w×h image whose pixel (x, y) is f(x, y). */
  function FromGrid(w: nat, h: nat, f: (nat, nat) -> Pixel): (img: Image)
    ensures img.width == w && img.height == h
    ensures forall x: nat, y: nat | x < w && y < h :: At(img, x, y) == f(x, y)
  {
    var img := Raster(w, h, Grid(w, h, f));
    assert forall x: nat, y: nat | x < w && y < h :: At(img, x, y) == f(x, y) by {
      forall x: nat, y: nat | x < w && y < h
        ensures At(img, x, y) == f(x, y)
      {
        GridAt(w, h, f, x, y);
      }
    }
    img
  }

  /** Two images of one size that agree at every pixel in bounds are equal. */
  lemma SamePixels(a: Image, b: Image)
    requires SameSize(a, b)
    requires forall x: nat, y: nat | x < a.width && y < a.height :: At(a, x, y) == At(b, x, y)
    ensures a == b
  {
    forall k | 0 <= k < |a.pix|
      ensures a.pix[k] == b.pix[k]
    {
      CellOfIndex(a.width, a.height, k);
      var x: nat, y: nat := k % a.width, k / a.width;
      assert At(a, x, y) == At(b, x, y);
    }
  }

  /** The image.RGBA buffer that image.NewRGBA allocates: w*h pixels, row-major. */
  class Canvas {
    const width: nat
    const height: nat
    const pix: array<Pixel>

    ghost predicate Valid()
    {
      pix.Length == width * height
    }

    /** image.NewRGBA(image.Rect(0, 0, w, h)): every pixel color.RGBA{}. */
    constructor (w: nat, h: nat)
      ensures Valid() && width == w && height == h && fresh(pix)
      ensures forall x: int, y: int :: RGBAAt(x, y) == Transparent
    {
      width, height := w, h;
      pix := new Pixel[w * h](_ => Transparent);
      new;
      forall x: int, y: int | 0 <= x < w && 0 <= y < h
        ensures RGBAAt(x, y) == Transparent
      {
        IndexInBounds(w, h, x, y);
      }
    }

    /** RGBAAt: the stored pixel at (x, y), color.RGBA{} outside the bounds. */
    function RGBAAt(x: int, y: int): Pixel
      reads pix
      requires Valid()
    {
      if 0 <= x < width && 0 <= y < height then
        IndexInBounds(width, height, x, y);
        pix[y * width + x]
      else
        Transparent
    }

    /** Set: stores c, converted to the RGBA model, at (x, y); a point outside
        the bounds is ignored. */
    method Set(x: int, y: int, c: Pixel)
      requires Valid()
      modifies pix
      ensures 0 <= x < width && 0 <= y < height ==> RGBAAt(x, y) == RgbaModel(c)
      ensures forall x': int, y': int | x' != x || y' != y :: RGBAAt(x', y') == old(RGBAAt(x', y'))
      ensures !(0 <= x < width && 0 <= y < height) ==> pix[..] == old(pix[..])
    {
      if 0 <= x < width && 0 <= y < height {
        IndexInBounds(width, height, x, y);
        pix[y * width + x] := RgbaModel(c);
        forall x': int, y': int
          ensures RGBAAt(x', y') == (if x' == x && y' == y then RgbaModel(c) else old(RGBAAt(x', y')))
        {
          if 0 <= x' < width && 0 <= y' < height {
            IndexInBounds(width, height, x', y');
            if x' != x || y' != y {
              IndexDivMod(width, x, y);
              IndexDivMod(width, x', y');
              assert y' * width + x' != y * width + x;
            }
          }
        }
      }
    }

    /** The buffer seen as an image.Image. */
    function AsImage(): (img: Image)
      reads pix
      requires Valid()
      ensures img.width == width && img.height == height
      ensures forall x: int, y: int :: At(img, x, y) == RGBAAt(x, y)
    {
      var img := Raster(width, height, pix[..]);
      assert forall x: int, y: int :: At(img, x, y) == RGBAAt(x, y) by {
        forall x: int, y: int
          ensures At(img, x, y) == RGBAAt(x, y)
        {
          if 0 <= x < width && 0 <= y < height {
            IndexInBounds(width, height, x, y);
          }
        }
      }
      img
    }
  }
}
