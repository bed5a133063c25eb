# Smart sweepers, modelled in Dafny

A model of the simulation core of *smart_sweepers*. This is a C# neuro-evolution toy. A population of tank-like minesweepers, each steered by a small feed-forward network, collects mines. A genetic algorithm breeds the network weights of the next generation from the sweepers' scores.

The model covers the following modules:

- **`Vector2D`**: the 2-D vector value type. It has componentwise `+` and `-`, scaling, division, dot product, `Sign`, and `GetRandom`.
- **`NeuralNet`**: network construction (`Neuron`, `NeuronLayer`, `CreateNet`) and weight counting. It covers the layer→neuron→weight traversal of `GetWeights` and `PutWeights`, and `Update`: the shape of its results and how each layer's outputs feed the next.
- **`Genomes`**: the two `Genome` constructors and `CompareTo`, which orders genomes by descending fitness.
- **`GeneticAlgorithm`**: single-point `Crossover`, bounded `Mutate`, prefix-sum roulette selection, `GrabNBest` elitism, the statistics, the constructor, and `Epoch` with its slot layout.
  - Genomes are objects in the program, and elitism puts the *same* genome into several slots. The model therefore keeps genomes in a store `seq<Genome>`, and population slots hold indices into it.
  - A `null` slot is `None`.
- **`Minesweeper`**: `Clamp`, the nearest-mine search, the sensor inputs, `Update` (turning, speed, edge wrap), `CheckForMine`, `Reset`, `IncrementFitness` and `PutWeights`.
- **`Controller`**: the constructor and the `Update` state machine.
  - `Update` counts ticks, and each call runs either one round of sweeper steps or one generation: statistics, `Epoch`, and new brains with a reset.
  - `ControlChangedSize` wraps and resizes the mines.
- **`Params`**: the static parameters and `fillMapDefaultValies`.
  - It models the line handling of `LoadMapValiesFromFile`: splitting on `' '` and `'='` with empty entries removed, then the int/double/keep decision.
  - It also models `getIntValue` and `getDoubleValue`.
- **`Wrappers`** and **`Utils`**: `Option`/`Result`, and the ranges of the random draws.

Conventions:

- Every random number is a parameter of the operation that draws it. The predicates in `Utils` state the range `System.Random` guarantees: `RandFloat()` is in [0, 1), and `RandomClamped()` is a `RandFloat()` draw minus 0.5.
- `Math.Sqrt`, `Math.Sin`, `Math.Cos` and `Math.Exp` are function values in a `MathFns` record. The only assumption about `exp` is that it is positive.
- Distances are compared squared. `Minesweeper.WithinIffShorter` shows that for a true square root this gives the same answer as comparing lengths.
- An exception the program does not catch becomes a `Failure(fault)`: `IndexOutOfRangeException`, `NullReferenceException`, or `ArgumentOutOfRangeException` from `Random.Next`.
- `false` and empty-array results stay as they are in the code.
- The outcome of `Array.Sort` is a parameter. It is any permutation of the population that `CompareTo` considers sorted (`Controller.IsSortOf`).
- The client-area size is a parameter. It is positive whenever `ControlChangedSize` runs, because `MainForm_Resize` returns early for a zero width or height (MainForm.cs:46-47).

In these places the model follows the code as written:

- **Roulette with zero total fitness.** The slice is 0, so the first prefix sum reaches it and the roulette returns index 0. It does not return the last genome.
- **Elites are shared, not copied.** Elite slots hold the same genome objects as the old population.
- **Skipped elitism leaves `null` slots.** When elitism is skipped because `iNumElite * iNumCopiesElite` is odd, breeding still starts at that product. The leading slots stay `null`, and the next generation's `PutWeights` loop then throws `NullReferenceException` (`Controller.RebrainNull`).
- **`PutWeights` accepts longer input.** It reads the first `GetNumberOfWeights()` entries and ignores the rest. Only a shorter array fails.
- **`GetWeights` does not round-trip.** Its buffer has the wrong size; see Findings.

## Model

| member | source | states |
|---|---|---|
| Utils.RandomClamped | Utils.cs:33-38 | a `NextDouble()` draw shifted down by a half lies in [-0.5, 0.5) |
| Vector2D.AddSubComponentwise | Vector2D.cs:27-68 | `+` and `-` act per component, and adding back what was subtracted (or the reverse) returns the original vector |
| Vector2D.ScaleOperandOrder | Vector2D.cs:35-59 | `v * s` equals `s * v` and scales both components; `v / s` divides both, and multiplying back by a non-zero `s` restores `v` |
| Vector2D.DotSymmetric | Vector2D.cs:114-122 | the dot product is symmetric, and the instance and static forms agree |
| Vector2D.SignProperties | Vector2D.cs:128-146 | `Sign` answers only 1 or -1; collinear and zero vectors give -1; swapping non-collinear arguments flips it; both forms agree |
| Vector2D.GetRandomInRange | Vector2D.cs:21-24 | with draws in [0, 1) and positive sizes, the random vector lies in [0, cx) x [0, cy) |
| Genomes.NewRandom | Genome.cs:14-21 | `chromoLength` weights, each in [-0.5, 0.5) and equal to its draw minus a half, and fitness 0 |
| Genomes.FromWeights | Genome.cs:23-30 | the copy has the same length and the same weight at every index, and fitness 0 |
| Genomes.CompareTo | Genome.cs:36-43 | -1 exactly when this genome is fitter, 1 exactly when the other is fitter, 0 exactly when the fitnesses are equal |
| Genomes.CompareAntisymmetric | Genome.cs:36-43 | compare(a, b) = -compare(b, a), compare(a, a) = 0, equal fitness compares equal |
| Genomes.NotAfterTotalPreorder | Genome.cs:36-43 | "compares <= 0" is reflexive, total and transitive, and holds exactly when the first genome is at least as fit |
| Genomes.SortedIffNonIncreasing | Genome.cs:36-43 | a sequence is sorted by `CompareTo` exactly when its fitness never increases |
| Genomes.SortedHeadIsFittest | GenAlg.cs:251 | after the sort, slot 0 is at least as fit as every genome |
| NeuralNet.NewNeuron | NeuralNet.cs:19-27 | a neuron built for `NumInputs` inputs has `NumInputs + 1` weights, each in [-0.5, 0.5) |
| NeuralNet.NewLayer | NeuralNet.cs:42-49 | `NumNeurons` neurons, each with `NumInputsPerNeuron + 1` clamped weights |
| NeuralNet.CreateNet | NeuralNet.cs:77-103 | H + 1 layers; with H = 0 one layer of NumOutputs neurons of NumInputs + 1 weights; otherwise NPH neurons of NI + 1 weights, then H - 1 layers of NPH neurons of NPH + 1 weights, then NumOutputs neurons of NPH + 1 weights |
| NeuralNet.NeuronsWeights | NeuralNet.cs:120-123 | the traversal of a run of neurons has one entry per weight of the run |
| NeuralNet.LayersWeights | NeuralNet.cs:118-123 | the layer-major traversal has one entry per weight of every neuron of every layer |
| NeuralNet.NeuronsSameShapeCount | NeuralNet.cs:141-143 | neuron runs of the same shape have the same weight count |
| NeuralNet.LayersSameShapeCount | NeuralNet.cs:139-143 | layer runs of the same shape have the same weight count |
| NeuralNet.PutNeurons | NeuralNet.cs:162-165 | writing a run of neurons keeps its shape and makes its traversal equal to the first count entries of the input |
| NeuralNet.PutLayers | NeuralNet.cs:160-165 | writing a run of layers keeps its shape and makes its traversal equal to the first count entries of the input |
| NeuralNet.PutWeights | NeuralNet.cs:155-168 | succeeds exactly when the input has at least `GetNumberOfWeights()` entries; the network keeps its shape and its weights, read in traversal order, are the input's prefix of that length |
| NeuralNet.PutNeuronsOwnWeights | NeuralNet.cs:162-165 | writing a neuron run's own weights back leaves it unchanged |
| NeuralNet.PutLayersOwnWeights | NeuralNet.cs:160-165 | writing a network's own weights back leaves it unchanged |
| NeuralNet.PutNeuronsPrefix | NeuralNet.cs:162-165 | entries after the first count never influence the written weights |
| NeuralNet.GetWeights | NeuralNet.cs:111-126 | as written: succeeds exactly when the weight count fits the `NumInputs + H*NPH` buffer; then the buffer starts with the weights in traversal order and ends in zeros |
| NeuralNet.GetWeightsSized | NeuralNet.cs:111-126 | with the buffer sized by the weight count, the result has that length and writing it back gives the same network |
| NeuralNet.GetAfterPut | NeuralNet.cs:111-168 | after `PutWeights(w)` the weights read back are the prefix of `w`, and the as-written getter agrees when the buffer size equals the weight count |
| NeuralNet.WeightCountFormula | NeuralNet.cs:134-146 | for a constructed network, `GetNumberOfWeights` = NO(NI+1) with H = 0, else NPH(NI+1) + (H-1)NPH(NPH+1) + NO(NPH+1) |
| NeuralNet.LayerCount | NeuralNet.cs:139-143 | layer i contributes its neuron count times (fan-in + 1) |
| NeuralNet.GetWeightsThrowsWithDefaults | NeuralNet.cs:114 | with the default parameters the network has 44 weights, the buffer 10 slots, and `GetWeights` throws |
| NeuralNet.Sigmoid | NeuralNet.cs:234-237 | for a positive `exp` and non-zero response the sigmoid lies strictly between 0 and 1 |
| NeuralNet.SigmoidAtZero | NeuralNet.cs:234-237 | the sigmoid of 0 is one half |
| NeuralNet.LayerOutputs | NeuralNet.cs:209-227 | a layer writes one output per neuron, each in (0, 1) |
| NeuralNet.FeedForward | NeuralNet.cs:195-228 | with no layers the inputs pass through; otherwise the result has one value per neuron of the last layer, each in (0, 1) |
| NeuralNet.ValidIsChained | NeuralNet.cs:86-103 | in a constructed network every layer's fan-in is the width of the layer before |
| NeuralNet.Update | NeuralNet.cs:176-231 | an input of the wrong length gives an empty result; otherwise exactly NumOutputs values, each in (0, 1) |
| NeuralNet.SingleLayerUpdate | NeuralNet.cs:211-226 | without hidden layers, output j is the sigmoid of the weighted inputs plus the last weight times the bias |
| NeuralNet.FeedForwardSnoc | NeuralNet.cs:195-228 | running the layer loop over one more layer is running that layer on the outputs of the layers before it |
| NeuralNet.OutputLayerUpdate | NeuralNet.cs:195-228 | for any number of hidden layers, output j is the sigmoid of output neuron j's weighted sum over the last hidden layer's outputs plus the bias weight |
| GeneticAlgorithm.Crossover | GenAlg.cs:74-106 | identical parents or a draw above the rate copy the parents; otherwise the babies are mum[..cp]+dad[cp..] and dad[..cp]+mum[cp..], and at each index the babies hold the two parents' values; an empty chromosome makes `RandInt(0, -1)` throw |
| GeneticAlgorithm.Mutate | GenAlg.cs:113-122 | the length is kept, a weight whose test draw is not below the rate is unchanged, and rate 0 gives the chromosome back |
| GeneticAlgorithm.MutateBounded | GenAlg.cs:117-121 | every weight moves by at most half of `dMaxPerturbation` |
| GeneticAlgorithm.RouletteScan | GenAlg.cs:137-150 | the scan stops at the first index whose running sum reaches the slice, and finds none exactly when no running sum reaches it |
| GeneticAlgorithm.Roulette | GenAlg.cs:128-153 | the chosen index is the first whose running fitness reaches `spin * total`; `null` exactly when none does |
| GeneticAlgorithm.PrefixSumMonotone | GenAlg.cs:139-141 | with non-negative fitnesses the running sums are non-negative and never decrease |
| GeneticAlgorithm.ScanReaches | GenAlg.cs:139-150 | a slice no larger than the total is always reached |
| GeneticAlgorithm.RouletteNeverNull | GenAlg.cs:131-152 | with non-negative fitnesses and a spin in [0, 1) the wheel never returns `null` |
| GeneticAlgorithm.RouletteZeroTotal | GenAlg.cs:131-149 | with total fitness 0 the wheel returns index 0 |
| GeneticAlgorithm.RouletteSingleScorer | GenAlg.cs:131-152 | for fitnesses [10, 0, 0] every spin selects genome 0 |
| GeneticAlgorithm.GrabNBest | GenAlg.cs:161-169 | slots g*K + c (g < NBest, c < K) receive genome g, all other slots are untouched, and the length is kept |
| GeneticAlgorithm.GrabNBestSlots | GenAlg.cs:165-168 | copy c of elite g sits in slot g*K + c |
| GeneticAlgorithm.CalculateStats | GenAlg.cs:176-189 | an empty population throws; otherwise the total is the sum of the fitnesses and the best is slot 0's |
| GeneticAlgorithm.StatsBestIsMax | GenAlg.cs:176-186 | on a population sorted by `CompareTo` the recorded best fitness is the maximum |
| GeneticAlgorithm.AverageFitness | GenAlg.cs:306-309 | the average times the population size is the total fitness |
| GeneticAlgorithm.NewGenAlg | GenAlg.cs:211-230 | `popsize` fresh genomes of `numweights` weights and fitness 0 appended to the store, one per slot, with zeroed statistics and the given rates |
| GeneticAlgorithm.Offspring | GenAlg.cs:270-279 | both babies have the chromosome length; a `null` roulette pick throws `NullReferenceException` |
| GeneticAlgorithm.Breed | GenAlg.cs:268-285 | succeeds exactly when every pair does; then exactly the remaining number of genomes, each with fitness 0 and a full-length chromosome |
| GeneticAlgorithm.BreedSlots | GenAlg.cs:281-284 | slot 2p holds the first baby of pair p, and slot 2p+1 (when it exists) the second |
| GeneticAlgorithm.ElitePopulation | GenAlg.cs:257-263 | an odd elite count leaves every slot `null`; an even one places the elites and leaves the rest `null` |
| GeneticAlgorithm.ElitesFrom | GenAlg.cs:161-169 | elite slots refer only to genomes of the sorted population |
| GeneticAlgorithm.Epoch | GenAlg.cs:242-291 | an empty population, or an even elite slot count larger than the population, throws; otherwise the statistics are set from the sorted population, popSize slots are returned, every slot refers into the store, the old genomes stay at the front of the store and new genomes have full length |
| GeneticAlgorithm.EpochLayout | GenAlg.cs:257-285 | slots from E*K on refer to fresh genomes of fitness 0, in order; the leading slots hold the elites when E*K is even and stay `null` when it is odd |
| GeneticAlgorithm.EpochBreeds | GenAlg.cs:268-285 | bred slot `E*K + j` refers to a new genome that copies baby `j mod 2` of breeding iteration `j / 2`: the mutated crossover of two parents picked by roulette over the statistics just computed |
| GeneticAlgorithm.EpochSucceeds | GenAlg.cs:242-291 | with non-negative fitnesses and non-empty chromosomes, `Epoch` succeeds exactly when the population is non-empty and the elites fit |
| GeneticAlgorithm.OffspringNearParents | GenAlg.cs:271-279 | at each index one baby is within half of `dMaxPerturbation` of one roulette-chosen parent and the other baby of the other parent |
| Params.DefaultMapMatchesFrames | Params.cs:76-100 | the default dictionary holds the initial frame rate and input and hidden-layer counts |
| Params.DefaultMapMatchesNetwork | Params.cs:76-100 | the default dictionary holds the initial layer sizes and activation response |
| Params.DefaultMapMatchesActivation | Params.cs:76-100 | the default dictionary holds the initial bias, turn rate and maximum speed |
| Params.DefaultMapMatchesSweeper | Params.cs:76-100 | the default dictionary holds the initial sweeper scale and mine and sweeper counts |
| Params.DefaultMapMatchesController | Params.cs:76-100 | the default dictionary holds the initial tick count, mine scale and crossover rate |
| Params.DefaultMapMatchesRates | Params.cs:76-100 | the default dictionary holds the initial mutation rate, perturbation and elite count |
| Params.DefaultMapMatchesElitism | Params.cs:76-100 | the default dictionary holds the initial elite copies, renderer and full-screen flag |
| Params.TokenLength | Params.cs:112 | the leading run of non-separators ends at a separator or at the end of the line |
| Params.Split | Params.cs:112 | no token is empty or contains `' '` or `'='` |
| Params.SplitKeepsCharacters | Params.cs:112 | the tokens, concatenated, are the line without its separators |
| Params.SplitJoin | Params.cs:112 | splitting a space-joined list of tokens gives the tokens back |
| Params.LoadLine | Params.cs:112-120 | a key the line assigns (first of at least two tokens, with a value that parses) gets the value, tried as int before double; every other key keeps its presence and value |
| Params.ShortLineIgnored | Params.cs:114-115 | a line with fewer than two tokens leaves the dictionary unchanged |
| Params.LastAssignmentWins | Params.cs:108-126 | a key's value comes from the last line that assigns it |
| Params.UnassignedKeyKept | Params.cs:102-129 | a key no line assigns keeps its value from the default dictionary |
| Params.SecondToken | Params.cs:237-238 | there is a second token exactly when the line exists and splits into at least two tokens |
| Params.GetIntValue | Params.cs:233-244 | the parsed second token, or the default when the line, the token or the parse is missing |
| Params.GetDoubleValue | Params.cs:246-257 | the parsed second token, or the default when the line, the token or the parse is missing |
| Params.GetIntValueOfLine | Params.cs:233-244 | a `key value` line yields the parse of `value`; a one-token line or no line yields the default |
| Params.GetDoubleValueOfLine | Params.cs:246-257 | a `key value` line yields the parse of `value`; a one-token line or no line yields the default |
| Minesweeper.NewSweeper | Minesweeper.cs:34-47 | the configured network, look-at (0, 0), tracks 0.16, fitness 0, cached mine 0, a heading in [0, 2 pi) and a position in the window |
| Minesweeper.RandomPlacement | Minesweeper.cs:46 | a random position lies inside the window |
| Minesweeper.RandomHeading | Minesweeper.cs:36 | a random heading lies in [0, 2 pi) |
| Minesweeper.Clamp | Minesweeper.cs:49-53 | with min <= max the result lies in [min, max], in-range values are unchanged, and values outside go to the nearer bound |
| Minesweeper.Wrap | Minesweeper.cs:118-122 | a coordinate at or past the far edge becomes exactly 0, a negative one exactly the window size, one inside is unchanged, and the result lies in [0, size] |
| Minesweeper.NearestFrom | Minesweeper.cs:164-176 | the search loop ends on a nearest mine, strictly nearer than every earlier mine |
| Minesweeper.GetClosestMine | Minesweeper.cs:157-179 | with mines, the lowest-index nearest mine and the vector from it to the sweeper; with none, (0, 0) and the stale cached index |
| Minesweeper.NearestIsFirstMinimum | Minesweeper.cs:168 | the nearest mine in the strict-less sense is unique |
| Minesweeper.NearerThanEarlier | Minesweeper.cs:164-176 | every earlier mine is strictly farther than the chosen one |
| Minesweeper.SensorInputs | Minesweeper.cs:79-87 | `iNumInputs` entries, beginning with the mine direction and the look-at vector, zeros after |
| Minesweeper.Drive | Minesweeper.cs:97-122 | rotation changes by the clamped track difference, speed is the track sum, the heading is (-sin, cos) of the new rotation, and the position moves along it and wraps |
| Minesweeper.Update | Minesweeper.cs:70-125 | fewer than four inputs throws; otherwise the network is run on the sensor inputs (unit vector to the nearest mine, then the heading): fewer than `iNumOutputs` answers return `false` with only the nearest-mine index updated, fewer than two answers throw, and otherwise the sweeper drives with the left track set to output 0 and the right track to output 1, each in (0, 1) |
| Minesweeper.UpdateMoves | Minesweeper.cs:101-122 | after a move the sweeper is inside the window, has turned by at most the turn rate, and its speed is the track sum below 2 (the maximum speed is never applied) |
| Minesweeper.UpdateSucceeds | Minesweeper.cs:90-94 | a network configured with the parameters' input and output counts always moves the sweeper |
| Minesweeper.FirstTickHeading | Minesweeper.cs:86-87 | a new sweeper's first sensor inputs carry (0, 0) as its heading |
| Minesweeper.WithinIffShorter | Minesweeper.cs:191 | for a true square root, `Length < size + 5` holds exactly when the squared distance is below the squared radius |
| Minesweeper.CheckForMine | Minesweeper.cs:187-195 | a stale cached index throws; otherwise the cached index when the mine is within `size + 5`, else -1 |
| Minesweeper.Reset | Minesweeper.cs:202-214 | fitness 0, the network and everything but position and rotation unchanged, a position in the window and a heading in [0, 2 pi) |
| Minesweeper.IncrementFitness | Minesweeper.cs:221 | fitness grows by exactly 1 and nothing else changes |
| Minesweeper.PutWeights | Minesweeper.cs:225 | succeeds exactly when the array is long enough; the network then holds its prefix |
| Minesweeper.ResetClearsFitness | Minesweeper.cs:202-221 | any number of increments followed by a reset leaves fitness 0 and the network untouched |
| Minesweeper.RepeatCounts | Minesweeper.cs:221 | n increments add exactly n and change nothing else |
| Controller.TicksWithinGeneration | Controller.cs:215 | while ticks stay within `iNumTicks`, each call adds one tick |
| Controller.GenerationLength | Controller.cs:215-256 | from tick 0, `iNumTicks` calls run rounds, and one more call resets ticks to 0 and adds one generation |
| Controller.Step | Controller.cs:217-241 | one sweeper's turn: other sweepers and genomes are unchanged; `false` stops with only that sweeper moved; otherwise a catch within `dMineScale + 5` adds one point and moves only the caught mine to a random position, a miss changes no mine, and the genome's fitness becomes the sweeper's |
| Controller.Round | Controller.cs:217-242 | the population, GA, counters and history are unchanged, the sweepers before the start index are unchanged, and a genome that no stepping sweeper holds is unchanged |
| Controller.RoundRecordsFitness | Controller.cs:241 | after a full round each genome holds the fitness of the last sweeper referring to it |
| Controller.StepScoresAtMostOne | Controller.cs:228-238 | one step raises a sweeper's fitness by 0 or 1 |
| Controller.RoundStopsAtFailure | Controller.cs:220-225 | a sweeper whose `Update` returns `false` ends the round with `false`; only its nearest-mine index changed and later sweepers do not move |
| Controller.Renew | Controller.cs:265-266 | succeeds exactly when the genome is long enough; then fitness 0, the same network shape with the genome's weights, and a position in the window |
| Controller.Rebrain | Controller.cs:263-267 | the loop yields one renewed sweeper and one reference per slot |
| Controller.RebrainSucceeds | Controller.cs:263-267 | the loop succeeds exactly when no slot is `null` and every genome fits its sweeper's network |
| Controller.RebrainSlot | Controller.cs:263-267 | slot k ends with the genome reference of slot k and sweeper k renewed with its weights |
| Controller.RebrainNull | Controller.cs:265 | with weights that fit, a `null` slot makes the loop throw `NullReferenceException` |
| Controller.SortIsSortedPopulation | GenAlg.cs:251 | the sorted population of a running controller is what `Epoch` expects |
| Controller.Generation | Controller.cs:246-268 | the history lists get the previous epoch's average and best, ticks go to 0, generations grow by 1, old genomes stay, and every sweeper holds its new genome's weights with fitness 0 |
| Controller.Installed | Controller.cs:259-267 | the world after the generation branch can run again, and every sweeper holds its new genome's weights with fitness 0 |
| Controller.RebrainedSweeper | Controller.cs:263-267 | after the loop, sweeper k's network keeps its configuration and holds all of genome k's weights |
| Controller.Update | Controller.cs:207-271 | the counters advance as `m_iTicks++ < iNumTicks` says; a round leaves the population, statistics and history alone; a generation returns `true`, appends the statistics and renews every sweeper |
| Controller.NewSweepers | Controller.cs:120-122 | `iNumSweepers` sweepers, each with the configured network and fitness 0 |
| Controller.NewMines | Controller.cs:138-140 | `iNumMines` mines, inside the client area for draws in [0, 1) |
| Controller.LoadBrains | Controller.cs:134-135 | sweeper i holds the weights of genome i |
| Controller.NewController | Controller.cs:100-153 | zero sweepers throws; otherwise sweepers, population and GA all have `iNumSweepers` slots, the chromosome length is the networks' weight count, there are `iNumMines` mines in the window, distinct genomes, and zeroed counters and statistics |
| Controller.Assemble | Controller.cs:124-140 | the controller once its sweepers exist, with the same facts as the constructor |
| Controller.AssembleReady | Controller.cs:131-135 | every sweeper of the assembled controller holds its genome's weights with fitness 0, and the controller can run |
| Controller.NewControllerReady | Controller.cs:131-135 | every sweeper of a new controller holds its genome's weights, and the controller can run |
| Controller.ReduceRange | Controller.cs:166-167 | the wrapped coordinate is below the size, non-negative for a non-negative start, unchanged when already below, unchanged by wrapping again, and the same for x and x + size |
| Controller.WrapBelow | Controller.cs:166-167 | `while (x >= c) x -= c` ends at the wrapped coordinate |
| Controller.Resize | Controller.cs:173-176 | the first min(old, new) mines are kept and only new slots receive random positions |
| Controller.ControlChangedSize | Controller.cs:155-177 | the window size is stored, old mines are wrapped into the new area, the count becomes the new count, and the controller can still run |
| Controller.ResizeKeepsMinesInside | Controller.cs:164-176 | after a resize every mine that started at non-negative coordinates lies in [0, cx) x [0, cy) |

## Left out

- File access, `MessageBox`, `LoadInParameters` with its `Convert` calls into the static fields, the unused `LoadInParameters_` loader, and the internals of `int.TryParse` and `double.TryParse`. The parsers are parameters.
- Rendering: `Render`, `PlotStats`, the two `WorldTransform` methods, `Matrix2D`, the vertex buffers and pens, `m_bFastRender`, `m_dBestInHistory`, `FastRenderToggle`, `RendererToggle`, and the Windows Forms loop and `CTimer`. None of them affects the simulation state.
- The `MessageBox` shown when a sweeper's network fails (Controller.cs:223). The model only returns `false`.
- IEEE-754 arithmetic. Weights, fitness and positions are `real`, so there is no rounding, overflow, infinity or NaN.
- `Math.Sqrt`, `Math.Sin`, `Math.Cos` and `Math.Exp` are uninterpreted functions. `exp` is only assumed positive.
- `Array.Sort`'s algorithm (an unstable introsort). Only its outcome is stated: a permutation that is sorted by `CompareTo`.
- The new mine count `(int)(Math.Pow(cx * cy, 0.75) / 200.0)` (Controller.cs:171). It is a parameter of `ControlChangedSize`.
- `Utils.RandBool` and `Utils.RadToDeg`: no modelled code calls them.
- Vector2D.Normalize: the program divides by zero for the zero vector (NaN); the model returns the zero vector.
- Minesweeper.GetClosestMine: compares squared distances where the program compares `Length`. For a true square root the choice is the same.
- Minesweeper.CheckForMine: compares the squared distance with the squared radius. `Minesweeper.WithinIffShorter` shows this agrees with `Length < size + 5`.
- NeuralNet.Sigmoid: requires a non-zero activation response and a positive `exp`. The program divides by the response and would produce NaN or infinity for 0.
- Controller.Update: requires a non-zero activation response for every network (`Running`).
- GeneticAlgorithm.AverageFitness: requires a non-empty population. In C# an empty one gives NaN, and that state is unreachable because the constructor throws first.
- GeneticAlgorithm.Crossover: the crossover point is drawn against the parents' length rather than `m_iChromoLength`. The two agree for every genome the algorithm holds.
- GeneticAlgorithm.CalculateStats: the program sums from the last slot down. With `real` the order of the additions does not matter, so the model sums from slot 0.

## Findings

| source | as written | input that shows it | evidently intended | confidence | as-written member | corrected member |
|---|---|---|---|---|---|---|
| NeuralNet.cs:114 | `GetWeights` allocates `NumInputs + NumHiddenLayers * NeuronsPerHiddenLyr` slots, but the traversal writes `GetNumberOfWeights()` values | the default network (4 inputs, 1 hidden layer of 6, 2 outputs): 44 weights into 10 slots, so `weights[10]` throws `IndexOutOfRangeException` | a buffer of `GetNumberOfWeights()` slots, so that `PutWeights(GetWeights())` leaves the network unchanged | not executed | NeuralNet.GetWeightsThrowsWithDefaults | NeuralNet.GetWeightsSized |
