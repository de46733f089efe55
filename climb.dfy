/** The body of main (main.go:122-144) once the goal is decoded: seed a noise
    candidate, score it, then run a fixed number of generations that keep a
    mutation only when its score is strictly lower. Snapshot writes, logging and
    the final save are I/O and are not modelled; a fatal error ends the run. */
module HillClimb {
  import opened Colors
  import opened Images
  import opened Distance
  import opened Mutation

  /** The number of generations main runs. */
  const Generations: nat := 1000000

  /** The random source, one draw per role: `coin(x, y)` for the noise pixel
      (x, y), `rate(i)` for the rand.Float64() scaled into the mutation rate of
      generation i, `mask(i)(x, y)` for the flip draw of pixel (x, y) in it. */
  datatype Draws = Draws(coin: (nat, nat) -> real, rate: nat -> real, mask: nat -> (nat, nat) -> real)

  /** The kept candidate and its score (cand and candDist). */
  datatype Kept = Kept(cand: Image, score: real)

  /** The mutation rate of generation i: rand.Float64() * 0.05. */
  function Rate(rng: Draws, i: nat): (r: real)
    ensures 0.0 <= rng.rate(i) < 1.0 ==> 0.0 <= r < 0.05
  {
    rng.rate(i) * 0.05
  }

  /** One generation: mutate and score; a failed score is fatal; otherwise the
      mutation replaces the kept candidate exactly when it scores strictly lower. */
  function Step(goal: Image, kept: Kept, i: nat, rng: Draws,
                smooth: Image -> Image, cost: (Sample, Sample) -> real): Result<Kept>
  {
    var newCand := Mutated(goal, kept.cand, Rate(rng, i), rng.mask(i));
    match Dist(smooth(newCand), goal, cost)
    case Err(e) => Err(e)
    case Ok(newDist) => Ok(if newDist < kept.score then Kept(newCand, newDist) else kept)
  }

  /** Generations i, i + 1, ..., n - 1 from the kept state. */
  function ClimbFrom(goal: Image, kept: Kept, i: nat, n: nat, rng: Draws,
                     smooth: Image -> Image, cost: (Sample, Sample) -> real): Result<Kept>
    decreases n - i
  {
    if i >= n then Ok(kept)
    else
      match Step(goal, kept, i, rng, smooth, cost)
      case Err(e) => Err(e)
      case Ok(next) => ClimbFrom(goal, next, i + 1, n, rng, smooth, cost)
  }

  /** The seeded candidate; scored raw, without smoothing, as main does. */
  function Seeded(goal: Image, rng: Draws, cost: (Sample, Sample) -> real): Result<Kept>
  {
    var cand := NoiseImage(goal.width, goal.height, rng.coin);
    match Dist(cand, goal, cost)
    case Err(e) => Err(e)
    case Ok(d) => Ok(Kept(cand, d))
  }

  /** A whole run: seeding, then every generation. */
  function Climb(goal: Image, rng: Draws, smooth: Image -> Image, cost: (Sample, Sample) -> real): Result<Kept>
  {
    match Seeded(goal, rng, cost)
    case Err(e) => Err(e)
    case Ok(seed) => ClimbFrom(goal, seed, 0, Generations, rng, smooth, cost)
  }

  ghost predicate NonIncreasing(s: seq<real>)
  {
    forall i, j | 0 <= i <= j < |s| :: s[j] <= s[i]
  }

  /** main: seed, score, then Generations rounds of mutate-and-keep. The ghost
      `scores` records candDist after seeding and after every generation. */
  method Run(goal: Image, rng: Draws, smooth: Image -> Image, cost: (Sample, Sample) -> real)
    returns (r: Result<Kept>, ghost scores: seq<real>)
    ensures r == Climb(goal, rng, smooth, cost)
    ensures r.Ok? ==> |scores| == Generations + 1 && scores[Generations] == r.value.score
    ensures NonIncreasing(scores)
  {
    var cand := Noise(goal.width, goal.height, rng.coin);
    var seedDist := ComputeDist(cand, goal, cost);
    if seedDist.Err? {
      // noise has the goal's size, so this log.Fatal is never reached (SeedNeverFails)
      assert false;
    }
    var candDist := seedDist.value;
    scores := [candDist];
    for i := 0 to Generations
      invariant ClimbFrom(goal, Kept(cand, candDist), i, Generations, rng, smooth, cost)
                == Climb(goal, rng, smooth, cost)
      invariant |scores| == i + 1 && scores[i] == candDist
      invariant NonIncreasing(scores)
    {
      ghost var kept := Kept(cand, candDist);
      var mut := Rate(rng, i);
      var newCand, newDist := MutateAndEval(goal, cand, mut, rng.mask(i), smooth, cost);
      assert newCand == Mutated(goal, kept.cand, Rate(rng, i), rng.mask(i));
      if newDist.Err? {
        assert Step(goal, kept, i, rng, smooth, cost) == Err(newDist.error);
        return Err(newDist.error), scores;
      }
      if newDist.value < candDist {
        cand, candDist := newCand, newDist.value;
      }
      assert Step(goal, kept, i, rng, smooth, cost) == Ok(Kept(cand, candDist));
      scores := scores + [candDist];
    }
    r := Ok(Kept(cand, candDist));
  }

  /** The seed has the goal's size, so scoring it never fails. */
  lemma SeedNeverFails(goal: Image, rng: Draws, cost: (Sample, Sample) -> real)
    ensures Seeded(goal, rng, cost).Ok?
    ensures SameSize(Seeded(goal, rng, cost).value.cand, goal)
    ensures BlackAndWhite(Seeded(goal, rng, cost).value.cand)
  {
    NoiseIsRgbaOnly(goal.width, goal.height, rng.coin);
  }

  /** A generation never raises the kept score, and a changed candidate is the
      generation's mutation, scored strictly lower after smoothing. */
  lemma StepNeverIncreases(goal: Image, kept: Kept, i: nat, rng: Draws,
                           smooth: Image -> Image, cost: (Sample, Sample) -> real)
    requires Step(goal, kept, i, rng, smooth, cost).Ok?
    ensures Step(goal, kept, i, rng, smooth, cost).value.score <= kept.score
    ensures Step(goal, kept, i, rng, smooth, cost).value != kept ==>
      var next := Step(goal, kept, i, rng, smooth, cost).value;
      next.score < kept.score &&
      next.cand == Mutated(goal, kept.cand, Rate(rng, i), rng.mask(i)) &&
      Dist(smooth(next.cand), goal, cost) == Ok(next.score)
  {
  }

  /** A mutation that scores strictly lower is always taken. */
  lemma StepTakesImprovement(goal: Image, kept: Kept, i: nat, rng: Draws,
                             smooth: Image -> Image, cost: (Sample, Sample) -> real, d: real)
    requires Dist(smooth(Mutated(goal, kept.cand, Rate(rng, i), rng.mask(i))), goal, cost) == Ok(d)
    requires d < kept.score
    ensures Step(goal, kept, i, rng, smooth, cost) ==
      Ok(Kept(Mutated(goal, kept.cand, Rate(rng, i), rng.mask(i)), d))
  {
  }

  /** The kept score never increases over any number of generations. */
  lemma {:induction false} ClimbNeverIncreases(goal: Image, kept: Kept, i: nat, n: nat, rng: Draws,
                                               smooth: Image -> Image, cost: (Sample, Sample) -> real)
    requires ClimbFrom(goal, kept, i, n, rng, smooth, cost).Ok?
    ensures ClimbFrom(goal, kept, i, n, rng, smooth, cost).value.score <= kept.score
    decreases n - i
  {
    if i < n {
      var next := Step(goal, kept, i, rng, smooth, cost).value;
      StepNeverIncreases(goal, kept, i, rng, smooth, cost);
      ClimbNeverIncreases(goal, next, i + 1, n, rng, smooth, cost);
    }
  }

  /** The kept score is honest when it is the smoothed candidate's distance to the goal. */
  ghost predicate Honest(goal: Image, kept: Kept, smooth: Image -> Image, cost: (Sample, Sample) -> real)
  {
    Dist(smooth(kept.cand), goal, cost) == Ok(kept.score)
  }

  /** After any number of generations the kept pair is either the one it started
      from or an honest one: a promoted candidate's score is its smoothed distance. */
  lemma {:induction false} ClimbStartOrHonest(goal: Image, kept: Kept, i: nat, n: nat, rng: Draws,
                                              smooth: Image -> Image, cost: (Sample, Sample) -> real)
    requires ClimbFrom(goal, kept, i, n, rng, smooth, cost).Ok?
    ensures var last := ClimbFrom(goal, kept, i, n, rng, smooth, cost).value;
      last == kept || Honest(goal, last, smooth, cost)
    decreases n - i
  {
    if i < n {
      var next := Step(goal, kept, i, rng, smooth, cost).value;
      StepNeverIncreases(goal, kept, i, rng, smooth, cost);
      ClimbStartOrHonest(goal, next, i + 1, n, rng, smooth, cost);
    }
  }

  /** Every kept candidate has the goal's size and stays black and white. */
  lemma {:induction false} ClimbKeepsShape(goal: Image, kept: Kept, i: nat, n: nat, rng: Draws,
                                           smooth: Image -> Image, cost: (Sample, Sample) -> real)
    requires SameSize(kept.cand, goal) && BlackAndWhite(kept.cand)
    requires ClimbFrom(goal, kept, i, n, rng, smooth, cost).Ok?
    ensures SameSize(ClimbFrom(goal, kept, i, n, rng, smooth, cost).value.cand, goal)
    ensures BlackAndWhite(ClimbFrom(goal, kept, i, n, rng, smooth, cost).value.cand)
    decreases n - i
  {
    if i < n {
      var next := Step(goal, kept, i, rng, smooth, cost).value;
      MutateKeepsBlackAndWhite(goal, kept.cand, Rate(rng, i), rng.mask(i));
      ClimbKeepsShape(goal, next, i + 1, n, rng, smooth, cost);
    }
  }

  /** When smoothing keeps an image's size, no generation can fail. */
  lemma {:induction false} ClimbNeverFails(goal: Image, kept: Kept, i: nat, n: nat, rng: Draws,
                                           smooth: Image -> Image, cost: (Sample, Sample) -> real)
    requires forall img: Image :: SameSize(smooth(img), img)
    ensures ClimbFrom(goal, kept, i, n, rng, smooth, cost).Ok?
    decreases n - i
  {
    if i < n {
      var m := Mutated(goal, kept.cand, Rate(rng, i), rng.mask(i));
      assert SameSize(smooth(m), m);
      var next := Step(goal, kept, i, rng, smooth, cost).value;
      ClimbNeverFails(goal, next, i + 1, n, rng, smooth, cost);
    }
  }

  /** What a whole run promises: when smoothing keeps sizes it finishes; its
      final candidate is black and white, of the goal's size, scored no worse
      than the raw seed, and is either the seed or honestly scored. */
  lemma ClimbOutcome(goal: Image, rng: Draws, smooth: Image -> Image, cost: (Sample, Sample) -> real)
    ensures (forall img: Image :: SameSize(smooth(img), img)) ==> Climb(goal, rng, smooth, cost).Ok?
    ensures Climb(goal, rng, smooth, cost).Ok? ==>
      var last := Climb(goal, rng, smooth, cost).value;
      var seed := Seeded(goal, rng, cost).value;
      SameSize(last.cand, goal) && BlackAndWhite(last.cand) &&
      last.score <= seed.score &&
      (last == seed || Honest(goal, last, smooth, cost))
  {
    SeedNeverFails(goal, rng, cost);
    var seed := Seeded(goal, rng, cost).value;
    if forall img: Image :: SameSize(smooth(img), img) {
      ClimbNeverFails(goal, seed, 0, Generations, rng, smooth, cost);
    }
    if Climb(goal, rng, smooth, cost).Ok? {
      ClimbKeepsShape(goal, seed, 0, Generations, rng, smooth, cost);
      ClimbNeverIncreases(goal, seed, 0, Generations, rng, smooth, cost);
      ClimbStartOrHonest(goal, seed, 0, Generations, rng, smooth, cost);
    }
  }

  /** A 2×2 all-white goal and a seed whose every draw picks white: the seed is
      the goal, so its raw score is 0 whenever a colour costs 0 against itself. */
  lemma WhiteSeedOnWhiteGoal(rng: Draws, cost: (Sample, Sample) -> real)
    requires forall x: nat, y: nat :: rng.coin(x, y) >= 0.5
    requires forall c: Sample :: cost(c, c) == 0.0
    ensures Seeded(Raster(2, 2, [White, White, White, White]), rng, cost).Ok?
    ensures Seeded(Raster(2, 2, [White, White, White, White]), rng, cost).value.score == 0.0
  {
    var goal: Image := Raster(2, 2, [White, White, White, White]);
    var seed := NoiseImage(2, 2, rng.coin);
    forall x: nat, y: nat | x < 2 && y < 2
      ensures At(seed, x, y) == At(goal, x, y)
    {
    }
    SamePixels(seed, goal);
    DistSelfIsZero(goal, cost);
  }
}
