# dally: a verified model of the hill-climbing skeleton

dally reshapes a black-and-white bitmap until it looks like a goal PNG. It seeds a
random noise image and scores it against the goal. It then runs 1,000,000
generations. Each generation flips a random subset of pixels, blurs and sharpens
the result, and scores it. The mutation is kept only when its score is strictly
lower. This project models the deterministic skeleton of `main.go`. The random
draws, the image filters and the per-pixel colour distance become parameters.

Modules, one per part of the program:

- `Colors` (colors.dfy): the colour values the program meets. `Rgba` is
  `color.RGBA` and `Foreign` is any other colour model, known by its 16-bit
  `RGBA()` channels. Also `black`, `white`, the flip, and `rgbaToColor`'s
  narrowing by 257.
- `Images` (images.dfy): an `image.Image` is a value (`Image`) with row-major
  pixels and `At`. The buffer `image.NewRGBA` allocates is the class `Canvas`
  over an array, with `Set` and `RGBAAt`.
- `Distance` (distance.dfy): `getPixels` and `dist`.
- `Mutation` (mutation.dfy): `noise` and `mutateAndEval`.
- `HillClimb` (climb.dfy): the seeding and the acceptance loop of `main`.

Each imperative part is a method with the source's loops: nested loops over a
`Canvas` or a sequence in `Noise`, `GetPixels` and `FillMutation`, and a single
loop in `ComputeDist` and `Run`. Each is proved equal to a specification function (`NoiseImage`,
`PixelsOf`, `Dist`, `Mutated`, `Climb`). The lemmas state what the program
promises about those functions.

Parameters stand for what is not modelled:

- `coin(x, y)` is the draw `noise` makes for pixel (x, y).
- `rng.rate(i)` is the draw that is scaled into generation i's mutation rate.
- `rng.mask(i)(x, y)` is generation i's flip draw for pixel (x, y).
- `smooth` is the Gaussian blur followed by the unsharp mask.
- `cost` is `DistanceLab`.

Distances are `real`.

One would expect the kept score to always be the kept candidate's smoothed
distance to the goal. The code does not keep that invariant. It scores the seed
raw, with `dist(cand, orig)` (main.go:123), while every mutation is scored after
smoothing (main.go:102-104). The model follows the code. What `ClimbOutcome`
proves is therefore weaker: the final pair is either the seed with its raw score
or an honestly scored candidate.

## Model

| member | source | states |
|---|---|---|
| `Colors.ChannelsOf` | main.go:69 | `RGBA()` yields four channels in [0, 0xFFFF]; a foreign colour yields its own channels |
| `Colors.RgbaModel` | main.go:91 | storing a colour in the RGBA buffer keeps an RGBA value unchanged and keeps the high byte of each channel of any other |
| `Colors.Narrow` | main.go:37 | `c/257` is the number of whole steps of 257 in c, and is at most 255 for every c in [0, 65535] |
| `Colors.WidenNarrow` | main.go:37 | narrowing `v*257` gives back v for every 8-bit v |
| `Colors.RgbaToColor` | main.go:36-38 | each of r, g, b is narrowed by truncating division by 257 into [0, 255]; alpha is ignored |
| `Colors.SampleOfRgba` | main.go:69 | the sample getPixels takes of an RGBA pixel is exactly its red, green and blue bytes |
| `Colors.SampleInRange` | main.go:69 | every sample getPixels takes has channels in [0, 255] |
| `Colors.Flip` | main.go:95-99 | the flip always gives black or white, and gives white exactly when the pixel is exactly black |
| `Colors.FlipInverts` | main.go:95-99 | on black and white the flip swaps the two colours and undoes itself |
| `Images.GridAt` | main.go:67-71 | in a row-major w×h layout, cell (x, y) is at index y*w + x |
| `Images.Canvas.constructor` | main.go:87 | `image.NewRGBA` gives a w×h buffer whose every pixel is `color.RGBA{}` |
| `Images.Canvas.Set` | main.go:91-98 | `Set` stores the converted colour at (x, y) only, leaves every other pixel unchanged, and ignores points outside the bounds |
| `Distance.PixelsOfAt` | main.go:63-73 | getPixels' list has width*height samples and holds pixel (x, y)'s sample at index y*width + x |
| `Distance.GetPixels` | main.go:63-73 | the loop returns the width and height from the bounds and exactly the row-major sample list; it has no error path |
| `Distance.ComputeDist` | main.go:40-60 | dist returns the mismatch error carrying both sizes, or the left-to-right sum of the aligned per-pixel costs |
| `Distance.DistFailsIffMismatch` | main.go:49-51 | dist fails exactly when the widths or the heights differ, with both images' sizes in the error |
| `Distance.DistSelfIsZero` | main.go:53-59 | an image is at distance 0 from itself when each colour costs 0 against itself |
| `Distance.DistEmptyIsZero` | main.go:53-59 | two empty images of one size are at distance 0 |
| `Distance.DistSymmetric` | main.go:53-59 | with a symmetric non-negative cost, dist(a, b) and dist(b, a) fail together, and otherwise are equal and not negative |
| `Mutation.Noise` | main.go:22-34 | the column-by-column fill produces exactly the noise image of the draws |
| `Mutation.NoiseIsBlackAndWhite` | main.go:22-34 | `noise(w, h)` is w×h, every pixel is black or white, and a pixel is black exactly when its draw is below 0.5 |
| `Mutation.NoiseIsRgbaOnly` | main.go:22-34 | the noise image is black and white and holds only RGBA values |
| `Mutation.MutatedAt` | main.go:88-101 | a mutated pixel is the base pixel converted to RGBA (the base pixel itself when it is RGBA) when its draw exceeds the rate; otherwise (a draw equal to the rate included) white if the base pixel is exactly black and black otherwise; the buffer has the goal's size |
| `Mutation.MutateNoneKeepsBase` | main.go:90-92 | when every draw exceeds the rate, the mutation of an RGBA base of the goal's size is the base |
| `Mutation.MutateAllInverts` | main.go:95-99 | when no draw exceeds the rate, every pixel of a black-and-white base is inverted |
| `Mutation.MutateTwiceRestores` | main.go:88-101 | applying the same flip mask twice to a black-and-white base of the goal's size restores it |
| `Mutation.MutateKeepsBlackAndWhite` | main.go:88-101 | mutating a black-and-white base of the goal's size gives a black-and-white image of the goal's size |
| `Mutation.FillMutation` | main.go:85-101 | the row-by-row fill produces exactly the mutated image; every cell is written once, in row-major order |
| `Mutation.FillRow` | main.go:89-100 | one pass of the inner loop sets row y to the mutated pixels, leaves later rows unset, and extends the write log by that row's indices in order |
| `Mutation.MutateAndEval` | main.go:84-106 | returns the raw mutated buffer, not the smoothed one, with the distance of the smoothed buffer to the goal, or that distance's error |
| `HillClimb.Rate` | main.go:129 | a draw in [0, 1) gives a mutation rate in [0, 0.05) |
| `HillClimb.Run` | main.go:122-141 | main's loop computes the run `Climb`; it records 1,000,000 + 1 scores when it finishes, and they never increase |
| `HillClimb.SeedNeverFails` | main.go:122-126 | the seed has the goal's size and is black and white, so scoring it cannot fail |
| `HillClimb.StepNeverIncreases` | main.go:135-138 | one generation never raises the kept score; a changed pair is the generation's mutation, scored strictly lower after smoothing |
| `HillClimb.StepTakesImprovement` | main.go:135-138 | a mutation whose score is strictly lower always replaces the kept pair |
| `HillClimb.ClimbNeverIncreases` | main.go:128-141 | over any number of generations the kept score never increases |
| `HillClimb.ClimbStartOrHonest` | main.go:128-141 | after any number of generations the kept pair is the starting one or its score is its candidate's smoothed distance |
| `HillClimb.ClimbKeepsShape` | main.go:128-141 | every kept candidate has the goal's size and stays black and white |
| `HillClimb.ClimbNeverFails` | main.go:130-133 | if smoothing keeps an image's size, no generation hits the fatal error |
| `HillClimb.ClimbOutcome` | main.go:122-143 | a run finishes when smoothing keeps sizes; its result is black and white, of the goal's size, no worse than the raw seed score, and is the seed or honestly scored |
| `HillClimb.WhiteSeedOnWhiteGoal` | main.go:122-123 | a 2×2 all-white goal with an all-white seed gives a raw seed score of 0 |

## Left out

- PNG decoding and encoding, `os.Open` and `os.Create`, `save`, and the snapshot file names (main.go:75-81, 109-120, 139, 144) are file I/O. A write failure is ignored by the source and does not appear in the model either.
- `math/rand` (main.go:27, 90, 129): the draws are parameters keyed by role (pixel, generation). The model abstracts the order in which one process-wide generator hands them out, and it does not model the random distribution.
- `blur.Gaussian` and `effect.UnsharpMask` (main.go:102-103) are a foreign floating-point library. They become the opaque `smooth`; the model does not assume that it keeps image sizes, except in `ClimbNeverFails`.
- `colorful.DistanceLab`, the float conversion in `rgbaToColor` and float accumulation (main.go:37, 53-56) become the opaque `cost` and exact `real` sums. Rounding and the order-dependence of float addition are not modelled. `Sample` holds the 8-bit numerators, which fix the `colorful.Color` exactly.
- Console output (main.go:136, 143) and the commented-out experiments (main.go:146-156).
- The two `err != nil` checks after `getPixels` in `dist` (main.go:42-48) are not modelled because `getPixels` always returns `nil`.
- Images with a bounds minimum other than (0, 0) are not modelled. Only `Bounds().Max` is read (main.go:65, 85, 122), and every image the program makes or decodes starts at (0, 0).
- `HillClimb.Rate`: the float product `rand.Float64() * 0.05` is the exact real product.
- `HillClimb.ClimbOutcome`: states "seed or honestly scored" and not "always honestly scored", because the code scores the seed without smoothing (main.go:123).
