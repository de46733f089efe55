/** Colour values as the program sees them through Go's image/color package,
    and the one exact piece of colour arithmetic in main.go (rgbaToColor). */
module Colors {

  type Byte = n: nat | n < 0x100
  type Word = n: nat | n < 0x1_0000
  type Uint32 = n: nat | n < 0x1_0000_0000

  /** A colour value returned by Image.At. `Rgba` is color.RGBA, the model the
      program itself writes; `Foreign` is a value of any other colour model (what
      a decoded PNG may hold), known only by the 16-bit channels its RGBA() returns. */
  datatype Pixel =
    | Rgba(r: Byte, g: Byte, b: Byte, a: Byte)
    | Foreign(r16: Word, g16: Word, b16: Word, a16: Word)

  const Black: Pixel := Rgba(0, 0, 0, 255)
  const White: Pixel := Rgba(255, 255, 255, 255)
  /** color.RGBA{}: what an image.RGBA holds before it is set, and what its At returns outside its bounds. */
  const Transparent: Pixel := Rgba(0, 0, 0, 0)

  /** The four values Color.RGBA() returns. */
  datatype Channels = Channels(r: Uint32, g: Uint32, b: Uint32, a: Uint32)

  /** color.RGBA.RGBA() widens an 8-bit channel v to v | v << 8. */
  function Widen(v: Byte): Word
  {
    v * 0x101
  }

  /** Color.RGBA(): 16-bit channels, whatever the colour model. */
  function ChannelsOf(p: Pixel): (c: Channels)
    ensures c.r <= 0xFFFF && c.g <= 0xFFFF && c.b <= 0xFFFF && c.a <= 0xFFFF
    ensures p.Foreign? ==> c == Channels(p.r16, p.g16, p.b16, p.a16)
  {
    match p
    case Rgba(r, g, b, a) => Channels(Widen(r), Widen(g), Widen(b), Widen(a))
    case Foreign(r, g, b, a) => Channels(r, g, b, a)
  }

  /** color.RGBAModel.Convert, which image.RGBA.Set applies to the colour it
      stores: an RGBA value is kept as it is, any other keeps the high byte of
      each 16-bit channel. */
  function RgbaModel(p: Pixel): (q: Pixel)
    ensures q.Rgba?
    ensures p.Rgba? ==> q == p
    ensures p.Foreign? ==>
      q.r * 0x100 <= p.r16 < q.r * 0x100 + 0x100 && q.g * 0x100 <= p.g16 < q.g * 0x100 + 0x100 &&
      q.b * 0x100 <= p.b16 < q.b * 0x100 + 0x100 && q.a * 0x100 <= p.a16 < q.a * 0x100 + 0x100
  {
    match p
    case Rgba(_, _, _, _) => p
    case Foreign(r, g, b, a) => Rgba(r / 0x100, g / 0x100, b / 0x100, a / 0x100)
  }

  /** The truncating division by 257 that rgbaToColor applies to each channel:
      the number of whole steps of 257 in c. */
  function Narrow(c: Uint32): (n: nat)
    ensures n * 257 <= c < n * 257 + 257
    ensures c <= 0xFFFF ==> n <= 255
  {
    c / 257
  }

  lemma WidenNarrow(v: Byte)
    ensures Narrow(Widen(v)) == v
  {
  }

  /** A colorful.Color as rgbaToColor builds it: channel k stands for the float
      k / 255, so the three 8-bit numerators determine it. */
  datatype Sample = Sample(r: nat, g: nat, b: nat)

  /** rgbaToColor: narrows the 16-bit channels to 8 bits and ignores alpha. */
  function RgbaToColor(r: Uint32, g: Uint32, b: Uint32, a: Uint32): (s: Sample)
    ensures r <= 0xFFFF && g <= 0xFFFF && b <= 0xFFFF ==> s.r <= 255 && s.g <= 255 && s.b <= 255
    ensures s.r * 257 <= r < s.r * 257 + 257
    ensures s.g * 257 <= g < s.g * 257 + 257
    ensures s.b * 257 <= b < s.b * 257 + 257
  {
    Sample(Narrow(r), Narrow(g), Narrow(b))
  }

  /** The colour sample getPixels takes of one pixel. */
  function SampleOf(p: Pixel): Sample
  {
    var c := ChannelsOf(p);
    RgbaToColor(c.r, c.g, c.b, c.a)
  }

  /** The sample of an 8-bit pixel is exactly its red, green and blue bytes. */
  lemma SampleOfRgba(p: Pixel)
    requires p.Rgba?
    ensures SampleOf(p) == Sample(p.r, p.g, p.b)
  {
    WidenNarrow(p.r);
    WidenNarrow(p.g);
    WidenNarrow(p.b);
  }

  /** Every sample of a pixel has channels in [0, 255]. */
  lemma SampleInRange(p: Pixel)
    ensures SampleOf(p).r <= 255 && SampleOf(p).g <= 255 && SampleOf(p).b <= 255
  {
  }

  /** The flip of mutateAndEval: exactly black becomes white, anything else black. */
  function Flip(p: Pixel): (q: Pixel)
    ensures q == Black || q == White
    ensures q == White <==> p == Black
  {
    if p == Black then White else Black
  }

  predicate BlackOrWhite(p: Pixel)
  {
    p == Black || p == White
  }

  lemma FlipInverts(p: Pixel)
    requires BlackOrWhite(p)
    ensures BlackOrWhite(Flip(p)) && Flip(p) != p && Flip(Flip(p)) == p
  {
  }
}
