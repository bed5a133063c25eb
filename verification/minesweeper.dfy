/** A minesweeper: a tank-like agent steered by its own network.

    Each tick it looks for the nearest mine, feeds the direction to it and
    its own heading to the network, turns and drives by the two track
    outputs, and wraps around the window edges. `Math.Sin`, `Math.Cos`,
    `Math.Sqrt` and `Math.Exp` come in through a `MathFns` value; distances
    are compared squared. */
module Minesweeper {
  import opened Wrappers
  import opened Utils
  import opened Vector2D
  import NN = NeuralNet
  import opened Params

  datatype Sweeper = Sweeper(
    brain: NN.Net,
    position: Vec,
    lookAt: Vec,
    rotation: real,
    speed: real,
    lTrack: real,
    rTrack: real,
    fitness: real,
    scale: real,
    closestMine: nat)

  /** The network a sweeper is built with. */
  function BrainConfig(p: Settings): NN.NetConfig {
    NN.NetConfig(p.numInputs, p.numOutputs, p.numHidden, p.neuronsPerHiddenLayer,
                 p.activationResponse, p.bias)
  }

  /** The constructor. `rotationDraw` is the `RandFloat()` for the heading,
      `brainDraws` the network's weight draws and `ux`, `uy` the draws of
      the start position. The heading vector is left at its default. */
  function NewSweeper(p: Settings, rotationDraw: real, brainDraws: seq<seq<seq<real>>>,
                      ux: real, uy: real): (s: Sweeper)
    requires NN.DrawsFit(BrainConfig(p), brainDraws)
    ensures NN.Valid(s.brain) && s.brain.config == BrainConfig(p)
    ensures s.lookAt == Zero && s.speed == 0.0
    ensures s.lTrack == 0.16 && s.rTrack == 0.16
    ensures s.fitness == 0.0 && s.closestMine == 0
    ensures s.scale == p.sweeperScale as real
    ensures IsRandFloat(rotationDraw) ==> 0.0 <= s.rotation < TwoPi
    ensures IsRandFloat(ux) && IsRandFloat(uy) && p.windowWidth > 0 && p.windowHeight > 0 ==>
      0.0 <= s.position.x < p.windowWidth as real && 0.0 <= s.position.y < p.windowHeight as real
  {
    RandomPlacement(p, ux, uy);
    RandomHeading(rotationDraw);
    Sweeper(NN.CreateNet(BrainConfig(p), brainDraws),
            GetRandom(p.windowWidth as real, p.windowHeight as real, ux, uy),
            Zero, rotationDraw * TwoPi, 0.0, 0.16, 0.16, 0.0, p.sweeperScale as real, 0)
  }

  /** `GetRandom(WindowWidth, WindowHeight)` lands inside the window. */
  lemma RandomPlacement(p: Settings, ux: real, uy: real)
    ensures IsRandFloat(ux) && IsRandFloat(uy) && p.windowWidth > 0 && p.windowHeight > 0 ==>
      var v := GetRandom(p.windowWidth as real, p.windowHeight as real, ux, uy);
      0.0 <= v.x < p.windowWidth as real && 0.0 <= v.y < p.windowHeight as real
  {
    if IsRandFloat(ux) && IsRandFloat(uy) && p.windowWidth > 0 && p.windowHeight > 0 {
      GetRandomInRange(p.windowWidth as real, p.windowHeight as real, ux, uy);
    }
  }

  /** `RandFloat() * dTwoPi` is an angle in [0, 2 pi). */
  lemma RandomHeading(u: real)
    ensures IsRandFloat(u) ==> 0.0 <= u * TwoPi < TwoPi
  {
    if IsRandFloat(u) {
      ScaleBelow(u, TwoPi);
    }
  }

  // ----------------------------------------------------------------------
  // Clamp and the window wrap
  // ----------------------------------------------------------------------

  /** `Clamp(ref arg, min, max)`: raise to `min`, then lower to `max`. */
  function Clamp(arg: real, min: real, max: real): (r: real)
    ensures min <= max ==> min <= r <= max
    ensures min <= arg <= max ==> r == arg
    ensures arg < min && min <= max ==> r == min
    ensures arg > max ==> r == max
    ensures max < min ==> r == max
  {
    var raised := if arg < min then min else arg;
    if raised > max then max else raised
  }

  /** The edge test of `Update` on one coordinate: past the far edge goes
      to exactly 0, below 0 to exactly the window size. */
  function Wrap(x: real, size: int): (r: real)
    ensures size >= 0 ==> 0.0 <= r <= size as real
    ensures x >= size as real ==> r == 0.0
    ensures x < 0.0 && x < size as real ==> r == size as real
    ensures 0.0 <= x < size as real ==> r == x
  {
    var x1 := if x >= size as real then 0.0 else x;
    if x1 < 0.0 then size as real else x1
  }

  // ----------------------------------------------------------------------
  // GetClosestMine
  // ----------------------------------------------------------------------

  /** The squared distance between the sweeper and a mine. */
  function DistSq(pos: Vec, mine: Vec): real {
    LengthSq(Sub(mine, pos))
  }

  /** The mine at index `best` is nearest among `mines`, and strictly
      nearer than every mine before it. */
  predicate IsNearest(pos: Vec, mines: seq<Vec>, best: nat) {
    best < |mines| &&
    (forall j :: 0 <= j < |mines| ==> DistSq(pos, mines[best]) <= DistSq(pos, mines[j])) &&
    (forall j :: 0 <= j < best ==> DistSq(pos, mines[best]) < DistSq(pos, mines[j]))
  }

  /** The search loop from index `i`, `best` being the winner so far. */
  function NearestFrom(pos: Vec, mines: seq<Vec>, i: nat, best: nat): (r: nat)
    requires best < i <= |mines|
    requires IsNearest(pos, mines[..i], best)
    ensures IsNearest(pos, mines, r)
    decreases |mines| - i
  {
    if i == |mines| then
      assert mines[..i] == mines;
      best
    else
      var next := if DistSq(pos, mines[i]) < DistSq(pos, mines[best]) then i else best;
      assert mines[..i + 1] == mines[..i] + [mines[i]];
      NearestFrom(pos, mines, i + 1, next)
  }

  /** `GetClosestMine`: the vector from the nearest mine to the sweeper
      (sweeper minus mine) and the index it caches. Ties go to the lowest
      index; with no mines the vector is (0, 0) and the cached index is the
      old one. */
  function GetClosestMine(s: Sweeper, mines: seq<Vec>): (r: (Vec, nat))
    ensures |mines| == 0 ==> r == (Zero, s.closestMine)
    ensures |mines| > 0 ==> IsNearest(s.position, mines, r.1) && r.0 == Sub(s.position, mines[r.1])
  {
    if |mines| == 0 then (Zero, s.closestMine)
    else
      assert mines[..1] == [mines[0]];
      var best := NearestFrom(s.position, mines, 1, 0);
      (Sub(s.position, mines[best]), best)
  }

  /** The nearest mine is unique up to ties, and the lowest index wins
      them: any index that is at least as near, and no later than the
      answer, is the answer. */
  lemma NearestIsFirstMinimum(pos: Vec, mines: seq<Vec>, a: nat, b: nat)
    requires IsNearest(pos, mines, a) && IsNearest(pos, mines, b)
    ensures a == b
  {
    if a < b {
      NearerThanEarlier(pos, mines, b, a);
    } else if b < a {
      NearerThanEarlier(pos, mines, a, b);
    }
  }

  lemma NearerThanEarlier(pos: Vec, mines: seq<Vec>, best: nat, j: nat)
    requires IsNearest(pos, mines, best) && j < best
    ensures j < |mines| && DistSq(pos, mines[best]) < DistSq(pos, mines[j])
  {
  }

  // ----------------------------------------------------------------------
  // Update
  // ----------------------------------------------------------------------

  /** The network inputs: the direction to the nearest mine, the heading,
      and zeros in any further slot. */
  function SensorInputs(toMine: Vec, lookAt: Vec, numInputs: nat): (inputs: seq<real>)
    requires numInputs >= 4
    ensures |inputs| == numInputs
    ensures inputs[..4] == [toMine.x, toMine.y, lookAt.x, lookAt.y]
    ensures forall k :: 4 <= k < numInputs ==> inputs[k] == 0.0
  {
    var inputs := seq(numInputs, k =>
      if k == 0 then toMine.x
      else if k == 1 then toMine.y
      else if k == 2 then lookAt.x
      else if k == 3 then lookAt.y
      else 0.0);
    assert inputs[..4] == [toMine.x, toMine.y, lookAt.x, lookAt.y];
    inputs
  }

  /** The movement half of `Update`, once the track forces are known. */
  function Drive(s: Sweeper, lTrack: real, rTrack: real, p: Settings, math: MathFns): (r: Sweeper)
    ensures r.lTrack == lTrack && r.rTrack == rTrack && r.speed == lTrack + rTrack
    ensures r.rotation == s.rotation + Clamp(lTrack - rTrack, -p.maxTurnRate, p.maxTurnRate)
    ensures r.lookAt == Vec(-math.sin(r.rotation), math.cos(r.rotation))
    ensures r.position.x == Wrap(s.position.x + Scale(r.lookAt, r.speed).x, p.windowWidth)
    ensures r.position.y == Wrap(s.position.y + Scale(r.lookAt, r.speed).y, p.windowHeight)
    ensures r.brain == s.brain && r.fitness == s.fitness && r.scale == s.scale
    ensures r.closestMine == s.closestMine
  {
    var rotation := s.rotation + Clamp(lTrack - rTrack, -p.maxTurnRate, p.maxTurnRate);
    var speed := lTrack + rTrack;
    var lookAt := Vec(-math.sin(rotation), math.cos(rotation));
    var step := Scale(lookAt, speed);
    var moved := Vec(s.position.x + step.x, s.position.y + step.y);
    s.(lTrack := lTrack, rTrack := rTrack, rotation := rotation, speed := speed,
       lookAt := lookAt, position := Vec(Wrap(moved.x, p.windowWidth), Wrap(moved.y, p.windowHeight)))
  }

  /** A sweeper the program can step: its network as built, with a usable
      activation response. */
  predicate Steppable(s: Sweeper) {
    NN.Valid(s.brain) && s.brain.config.activationResponse != 0.0
  }

  /** What the sweeper feeds its network on a tick: the unit vector
      towards the nearest mine, then its own heading. */
  function Senses(s: Sweeper, mines: seq<Vec>, p: Settings, math: MathFns): seq<real>
    requires p.numInputs >= 4
  {
    SensorInputs(Normalize(GetClosestMine(s, mines).0, math.sqrt), s.lookAt, p.numInputs)
  }

  /** `Update(ref mines)`: `Success((s', true))` after a move,
      `Success((s', false))` when the network answers with fewer than
      `iNumOutputs` values, and `Failure` where the program throws: an
      input array too short for the four sensor values, or fewer than two
      outputs. The nearest-mine index is cached in every case. */
  function Update(s: Sweeper, mines: seq<Vec>, p: Settings, math: MathFns): (r: Result<(Sweeper, bool)>)
    requires Steppable(s) && PositiveExp(math.exp)
    ensures p.numInputs < 4 ==> r == Failure(IndexOutOfRange)
    ensures p.numInputs >= 4 ==>
      var out := NN.Update(s.brain, Senses(s, mines, p, math), math.exp);
      && (r.Success? && !r.value.1 <==> |out| < p.numOutputs)
      && (r.Failure? <==> p.numOutputs <= |out| < 2)
      && (r.Success? && r.value.1 ==>
            |out| >= 2 && r.value.0.lTrack == out[0] && r.value.0.rTrack == out[1])
    ensures p.numInputs >= 4 && p.numInputs != s.brain.config.numInputs && p.numOutputs > 0 ==>
      r.Success? && !r.value.1
    ensures r.Success? && !r.value.1 ==>
      r.value.0 == s.(closestMine := GetClosestMine(s, mines).1)
    ensures r.Success? && r.value.1 ==>
      r.value.0 == Drive(s.(closestMine := GetClosestMine(s, mines).1),
                         r.value.0.lTrack, r.value.0.rTrack, p, math) &&
      0.0 < r.value.0.lTrack < 1.0 && 0.0 < r.value.0.rTrack < 1.0
  {
    var index := GetClosestMine(s, mines).1;
    var s1 := s.(closestMine := index);
    if p.numInputs < 4 then Failure(IndexOutOfRange)
    else
      var output := NN.Update(s.brain, Senses(s, mines, p, math), math.exp);
      if |output| < p.numOutputs then Success((s1, false))
      else if |output| < 2 then Failure(IndexOutOfRange)
      else Success((Drive(s1, output[0], output[1], p, math), true))
  }

  /** After a move the sweeper is inside the window, its heading has turned
      by at most the maximum turn rate, and its brain and fitness are as
      they were; the maximum speed is never applied. */
  lemma UpdateMoves(s: Sweeper, mines: seq<Vec>, p: Settings, math: MathFns)
    requires Steppable(s) && PositiveExp(math.exp)
    requires p.windowWidth >= 0 && p.windowHeight >= 0 && p.maxTurnRate >= 0.0
    requires Update(s, mines, p, math).Success? && Update(s, mines, p, math).value.1
    ensures var s' := Update(s, mines, p, math).value.0;
      && 0.0 <= s'.position.x <= p.windowWidth as real
      && 0.0 <= s'.position.y <= p.windowHeight as real
      && -p.maxTurnRate <= s'.rotation - s.rotation <= p.maxTurnRate
      && s'.speed == s'.lTrack + s'.rTrack
      && 0.0 < s'.speed < 2.0
      && s'.brain == s.brain && s'.fitness == s.fitness
  {
  }

  /** With the configured network, a sweeper whose input count matches
      the network always moves (given at least two outputs). */
  lemma UpdateSucceeds(s: Sweeper, mines: seq<Vec>, p: Settings, math: MathFns)
    requires Steppable(s) && PositiveExp(math.exp)
    requires p.numInputs >= 4 && s.brain.config.numInputs == p.numInputs
    requires s.brain.config.numOutputs == p.numOutputs && p.numOutputs >= 2
    ensures Update(s, mines, p, math).Success? && Update(s, mines, p, math).value.1
  {
  }

  /** On its first tick a new sweeper feeds (0, 0) as its heading. */
  lemma FirstTickHeading(p: Settings, rotationDraw: real, brainDraws: seq<seq<seq<real>>>,
                         ux: real, uy: real, toMine: Vec)
    requires NN.DrawsFit(BrainConfig(p), brainDraws) && p.numInputs >= 4
    ensures var s := NewSweeper(p, rotationDraw, brainDraws, ux, uy);
      SensorInputs(toMine, s.lookAt, p.numInputs)[2] == 0.0 &&
      SensorInputs(toMine, s.lookAt, p.numInputs)[3] == 0.0
  {
    var s := NewSweeper(p, rotationDraw, brainDraws, ux, uy);
    var inputs := SensorInputs(toMine, s.lookAt, p.numInputs);
    assert inputs[2] == inputs[..4][2];
    assert inputs[3] == inputs[..4][3];
  }

  // ----------------------------------------------------------------------
  // CheckForMine, Reset, IncrementFitness, PutWeights
  // ----------------------------------------------------------------------

  /** `Length < radius`, stated on the squared length. */
  predicate Within(distSq: real, radius: real) {
    radius > 0.0 && distSq < radius * radius
  }

  /** For a true square root, comparing the length with the radius is the
      same as comparing squares. */
  lemma WithinIffShorter(distSq: real, len: real, radius: real)
    requires IsSquareRoot(distSq, len)
    ensures len < radius <==> Within(distSq, radius)
  {
    if len < radius {
      ShorterIsWithin(distSq, len, radius);
    } else {
      NotShorterIsOutside(distSq, len, radius);
    }
  }

  lemma ShorterIsWithin(distSq: real, len: real, radius: real)
    requires IsSquareRoot(distSq, len) && len < radius
    ensures Within(distSq, radius)
  {
    assert len >= 0.0 && distSq == len * len;
    SquaresOrdered(len, radius);
  }

  lemma SquaresOrdered(a: real, b: real)
    requires 0.0 <= a < b
    ensures a * a < b * b
  {
    PositiveProduct(b - a, b + a);
    DifferenceOfSquares(b, a);
    var p := (b - a) * (b + a);
    assert p > 0.0;
    assert p == b * b - a * a;
  }

  lemma NotShorterIsOutside(distSq: real, len: real, radius: real)
    requires IsSquareRoot(distSq, len) && len >= radius
    ensures !Within(distSq, radius)
  {
    if radius > 0.0 {
      NonNegativeProduct(len - radius, len + radius);
      DifferenceOfSquares(len, radius);
      var p := (len - radius) * (len + radius);
      assert p >= 0.0;
      assert p == len * len - radius * radius;
      assert distSq == len * len;
    }
  }

  lemma DifferenceOfSquares(a: real, b: real)
    ensures (a - b) * (a + b) == a * a - b * b
  {
  }

  lemma PositiveProduct(a: real, b: real)
    requires a > 0.0 && b > 0.0
    ensures a * b > 0.0
  {
  }

  lemma NonNegativeProduct(a: real, b: real)
    requires a >= 0.0 && b >= 0.0
    ensures a * b >= 0.0
  {
  }

  /** `CheckForMine(ref mines, size)`: the cached nearest-mine index when
      that mine is closer than `size + 5`, else -1. The cached index is read
      without a bounds check. */
  function CheckForMine(s: Sweeper, mines: seq<Vec>, size: real): (r: Result<int>)
    ensures s.closestMine >= |mines| <==> r == Failure(IndexOutOfRange)
    ensures r.Success? ==>
      (r.value == s.closestMine as int <==>
         Within(LengthSq(Sub(s.position, mines[s.closestMine])), size + 5.0))
    ensures r.Success? ==> (r.value == -1 <==>
         !Within(LengthSq(Sub(s.position, mines[s.closestMine])), size + 5.0))
  {
    if s.closestMine >= |mines| then Failure(IndexOutOfRange)
    else if Within(LengthSq(Sub(s.position, mines[s.closestMine])), size + 5.0)
    then Success(s.closestMine as int)
    else Success(-1)
  }

  /** `Reset`: a new random position and heading angle and zero fitness;
      the network, heading vector, tracks and cached index are kept. */
  function Reset(s: Sweeper, p: Settings, ux: real, uy: real, rotationDraw: real): (r: Sweeper)
    ensures r.fitness == 0.0
    ensures r.brain == s.brain && r.lookAt == s.lookAt && r.speed == s.speed
    ensures r.lTrack == s.lTrack && r.rTrack == s.rTrack
    ensures r.scale == s.scale && r.closestMine == s.closestMine
    ensures IsRandFloat(ux) && IsRandFloat(uy) && p.windowWidth > 0 && p.windowHeight > 0 ==>
      0.0 <= r.position.x < p.windowWidth as real && 0.0 <= r.position.y < p.windowHeight as real
    ensures IsRandFloat(rotationDraw) ==> 0.0 <= r.rotation < TwoPi
  {
    RandomPlacement(p, ux, uy);
    RandomHeading(rotationDraw);
    s.(position := GetRandom(p.windowWidth as real, p.windowHeight as real, ux, uy),
       fitness := 0.0,
       rotation := rotationDraw * TwoPi)
  }

  /** `IncrementFitness`. */
  function IncrementFitness(s: Sweeper): (r: Sweeper)
    ensures r.fitness == s.fitness + 1.0
    ensures r == s.(fitness := r.fitness)
  {
    s.(fitness := s.fitness + 1.0)
  }

  /** `PutWeights(ref w)`: hands the weights to the network. */
  function PutWeights(s: Sweeper, w: seq<real>): (r: Result<Sweeper>)
    requires NN.Valid(s.brain)
    ensures r.Success? <==> |w| >= NN.GetNumberOfWeights(s.brain)
    ensures r.Success? ==>
      r.value == s.(brain := r.value.brain) && NN.Valid(r.value.brain) &&
      r.value.brain.config == s.brain.config &&
      NN.LayersWeights(r.value.brain.layers) == w[..NN.GetNumberOfWeights(s.brain)]
  {
    match NN.PutWeights(s.brain, w)
    case Failure(e) => Failure(e)
    case Success(b) => Success(s.(brain := b))
  }

  /** `IncrementFitness` then `Reset` leaves zero: fitness is per
      generation. */
  lemma ResetClearsFitness(s: Sweeper, p: Settings, ux: real, uy: real, rotationDraw: real, n: nat)
    ensures Reset(Repeat(s, n), p, ux, uy, rotationDraw).fitness == 0.0
    ensures Repeat(s, n).fitness == s.fitness + n as real
    ensures Repeat(s, n).brain == s.brain
  {
    RepeatCounts(s, n);
  }

  /** `n` calls of `IncrementFitness`. */
  function Repeat(s: Sweeper, n: nat): Sweeper
    decreases n
  {
    if n == 0 then s else IncrementFitness(Repeat(s, n - 1))
  }

  lemma {:induction false} RepeatCounts(s: Sweeper, n: nat)
    ensures Repeat(s, n).fitness == s.fitness + n as real
    ensures Repeat(s, n) == s.(fitness := s.fitness + n as real)
    decreases n
  {
    if n > 0 {
      RepeatCounts(s, n - 1);
    }
  }
}
