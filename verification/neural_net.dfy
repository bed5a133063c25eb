/** The fixed-topology feed-forward network (`NeuralNet`, `NeuronLayer`,
    `Neuron`).

    A neuron stores one weight per input plus one trailing bias weight; the
    source's `m_NumInputs` of a neuron is the length of its weight array.
    Every traversal (weight counting, reading, writing, construction) goes
    layer by layer, neuron by neuron, weight by weight. The activation's
    `Math.Exp` is a parameter. */
module NeuralNet {
  import opened Wrappers
  import opened Utils

  /** The `Params` values a network is built from. */
  datatype NetConfig = NetConfig(
    numInputs: nat,
    numOutputs: nat,
    numHidden: nat,
    neuronsPerHidden: nat,
    activationResponse: real,
    bias: real)

  /** `weights[..|weights|-1]` multiply the inputs; the last weight
      multiplies the bias. */
  datatype Neuron = Neuron(weights: seq<real>)

  datatype NeuronLayer = NeuronLayer(neurons: seq<Neuron>)

  datatype Net = Net(config: NetConfig, layers: seq<NeuronLayer>)

  // ----------------------------------------------------------------------
  // Shape
  // ----------------------------------------------------------------------

  /** Inputs per neuron in layer `i`. */
  function FanIn(c: NetConfig, i: nat): nat {
    if i == 0 then c.numInputs else c.neuronsPerHidden
  }

  /** Neurons in layer `i`: hidden layers come first, the output layer is
      layer `numHidden`. */
  function LayerSize(c: NetConfig, i: nat): nat {
    if i < c.numHidden then c.neuronsPerHidden else c.numOutputs
  }

  predicate HasShape(l: NeuronLayer, numNeurons: nat, fanIn: nat) {
    && |l.neurons| == numNeurons
    && forall j :: 0 <= j < |l.neurons| ==> |l.neurons[j].weights| == fanIn + 1
  }

  /** The shape `CreateNet` builds from the configuration. */
  predicate Valid(net: Net) {
    && |net.layers| == net.config.numHidden + 1
    && forall i :: 0 <= i < |net.layers| ==>
         HasShape(net.layers[i], LayerSize(net.config, i), FanIn(net.config, i))
  }

  // ----------------------------------------------------------------------
  // Construction
  // ----------------------------------------------------------------------

  predicate AllRandFloats(us: seq<real>) {
    forall k :: 0 <= k < |us| ==> IsRandFloat(us[k])
  }

  predicate WeightsClamped(l: NeuronLayer) {
    forall j, k :: 0 <= j < |l.neurons| && 0 <= k < |l.neurons[j].weights| ==>
      -0.5 <= l.neurons[j].weights[k] < 0.5
  }

  /** `Neuron(NumInputs)`: NumInputs + 1 weights from `RandomClamped()`. */
  function NewNeuron(numInputs: nat, draws: seq<real>): (n: Neuron)
    requires |draws| == numInputs + 1 && AllRandFloats(draws)
    ensures |n.weights| == numInputs + 1
    ensures forall k :: 0 <= k < |n.weights| ==> -0.5 <= n.weights[k] < 0.5
  {
    Neuron(seq(numInputs + 1, k requires 0 <= k < numInputs + 1 => RandomClamped(draws[k])))
  }

  /** `NeuronLayer(NumNeurons, NumInputsPerNeuron)`; `draws[j]` are the
      draws of neuron `j`. */
  function NewLayer(numNeurons: nat, numInputsPerNeuron: nat, draws: seq<seq<real>>): (l: NeuronLayer)
    requires |draws| == numNeurons
    requires forall j :: 0 <= j < numNeurons ==>
               |draws[j]| == numInputsPerNeuron + 1 && AllRandFloats(draws[j])
    ensures HasShape(l, numNeurons, numInputsPerNeuron)
    ensures WeightsClamped(l)
  {
    NeuronLayer(seq(numNeurons, j requires 0 <= j < numNeurons => NewNeuron(numInputsPerNeuron, draws[j])))
  }

  /** `draws[i][j]` holds the weight draws of neuron `j` of layer `i`. */
  predicate DrawsFit(c: NetConfig, draws: seq<seq<seq<real>>>) {
    && |draws| == c.numHidden + 1
    && forall i :: 0 <= i < |draws| ==>
         && |draws[i]| == LayerSize(c, i)
         && forall j :: 0 <= j < |draws[i]| ==>
              |draws[i][j]| == FanIn(c, i) + 1 && AllRandFloats(draws[i][j])
  }

  /** The constructor with `CreateNet`: numHidden + 1 layers. */
  function CreateNet(c: NetConfig, draws: seq<seq<seq<real>>>): (net: Net)
    requires DrawsFit(c, draws)
    ensures Valid(net) && net.config == c
    ensures |net.layers| == c.numHidden + 1
    ensures c.numHidden == 0 ==> HasShape(net.layers[0], c.numOutputs, c.numInputs)
    ensures c.numHidden > 0 ==>
      && HasShape(net.layers[0], c.neuronsPerHidden, c.numInputs)
      && (forall i :: 1 <= i < c.numHidden ==>
            HasShape(net.layers[i], c.neuronsPerHidden, c.neuronsPerHidden))
      && HasShape(net.layers[c.numHidden], c.numOutputs, c.neuronsPerHidden)
    ensures forall i :: 0 <= i < |net.layers| ==> WeightsClamped(net.layers[i])
  {
    Net(c, seq(c.numHidden + 1, i requires 0 <= i < c.numHidden + 1 =>
                 NewLayer(LayerSize(c, i), FanIn(c, i), draws[i])))
  }

  // ----------------------------------------------------------------------
  // Weight counting and the layer -> neuron -> weight traversal
  // ----------------------------------------------------------------------

  function NeuronsWeightCount(ns: seq<Neuron>): nat {
    if |ns| == 0 then 0 else |ns[0].weights| + NeuronsWeightCount(ns[1..])
  }

  function LayersWeightCount(ls: seq<NeuronLayer>): nat {
    if |ls| == 0 then 0 else NeuronsWeightCount(ls[0].neurons) + LayersWeightCount(ls[1..])
  }

  /** `GetNumberOfWeights`: the sum over all neurons of fan-in + 1. */
  function GetNumberOfWeights(net: Net): nat {
    LayersWeightCount(net.layers)
  }

  /** The weights of a run of neurons, in traversal order. */
  function NeuronsWeights(ns: seq<Neuron>): (w: seq<real>)
    ensures |w| == NeuronsWeightCount(ns)
  {
    if |ns| == 0 then [] else ns[0].weights + NeuronsWeights(ns[1..])
  }

  /** The weights of a run of layers, in traversal order. */
  function LayersWeights(ls: seq<NeuronLayer>): (w: seq<real>)
    ensures |w| == LayersWeightCount(ls)
  {
    if |ls| == 0 then [] else NeuronsWeights(ls[0].neurons) + LayersWeights(ls[1..])
  }

  predicate NeuronsSameShape(a: seq<Neuron>, b: seq<Neuron>) {
    |a| == |b| && forall j :: 0 <= j < |a| ==> |a[j].weights| == |b[j].weights|
  }

  predicate LayersSameShape(a: seq<NeuronLayer>, b: seq<NeuronLayer>) {
    |a| == |b| && forall i :: 0 <= i < |a| ==> NeuronsSameShape(a[i].neurons, b[i].neurons)
  }

  /** The writing half of `PutWeights` for a run of neurons: each neuron
      takes the next `|weights|` entries of `w`. */
  function PutNeurons(ns: seq<Neuron>, w: seq<real>): (r: seq<Neuron>)
    requires |w| >= NeuronsWeightCount(ns)
    ensures NeuronsSameShape(r, ns)
    ensures NeuronsWeights(r) == w[..NeuronsWeightCount(ns)]
  {
    if |ns| == 0 then []
    else
      var k := |ns[0].weights|;
      var rest := PutNeurons(ns[1..], w[k..]);
      var r := [Neuron(w[..k])] + rest;
      assert r[1..] == rest;
      PrefixThenNext(w, k, NeuronsWeightCount(ns[1..]));
      r
  }

  /** Reading `k` entries and then `n` more reads the first `k + n`. */
  lemma PrefixThenNext(w: seq<real>, k: nat, n: nat)
    requires k + n <= |w|
    ensures w[..k] + w[k..][..n] == w[..k + n]
  {
    assert forall i :: 0 <= i < k + n ==> (w[..k] + w[k..][..n])[i] == w[i];
  }

  /** The writing half of `PutWeights` for a run of layers. */
  function PutLayers(ls: seq<NeuronLayer>, w: seq<real>): (r: seq<NeuronLayer>)
    requires |w| >= LayersWeightCount(ls)
    ensures LayersSameShape(r, ls)
    ensures LayersWeights(r) == w[..LayersWeightCount(ls)]
  {
    if |ls| == 0 then []
    else
      var k := NeuronsWeightCount(ls[0].neurons);
      var rest := PutLayers(ls[1..], w[k..]);
      var r := [NeuronLayer(PutNeurons(ls[0].neurons, w))] + rest;
      assert r[1..] == rest;
      PrefixThenNext(w, k, LayersWeightCount(ls[1..]));
      r
  }

  /** `PutWeights`: overwrites every weight in traversal order, reading
      exactly `GetNumberOfWeights()` entries; extra entries are ignored and
      too few make the indexing throw. */
  function PutWeights(net: Net, w: seq<real>): (r: Result<Net>)
    ensures r.Success? <==> |w| >= GetNumberOfWeights(net)
    ensures r.Success? ==>
      && r.value.config == net.config
      && LayersSameShape(r.value.layers, net.layers)
      && LayersWeights(r.value.layers) == w[..GetNumberOfWeights(net)]
      && (Valid(net) ==> Valid(r.value))
      && GetNumberOfWeights(r.value) == GetNumberOfWeights(net)
  {
    if |w| < GetNumberOfWeights(net) then Failure(IndexOutOfRange)
    else
      var r := Net(net.config, PutLayers(net.layers, w));
      LayersSameShapeCount(r.layers, net.layers);
      Success(r)
  }

  /** `GetWeights` as written: the result buffer has
      `NumInputs + NumHidden * NeuronsPerHidden` slots, while the traversal
      writes `GetNumberOfWeights()` values, so a larger network throws and a
      smaller one leaves trailing zeros. */
  function GetWeights(net: Net): (r: Result<seq<real>>)
    ensures r.Success? <==> GetNumberOfWeights(net) <= BufferLength(net.config)
    ensures r.Success? ==>
      && |r.value| == BufferLength(net.config)
      && r.value[..GetNumberOfWeights(net)] == LayersWeights(net.layers)
      && forall k :: GetNumberOfWeights(net) <= k < |r.value| ==> r.value[k] == 0.0
  {
    var n := GetNumberOfWeights(net);
    var size := BufferLength(net.config);
    if n > size then Failure(IndexOutOfRange)
    else
      var r := LayersWeights(net.layers) + seq(size - n, _ => 0.0);
      assert r[..n] == LayersWeights(net.layers);
      Success(r)
  }

  /** The length `GetWeights` allocates. */
  function BufferLength(c: NetConfig): nat {
    c.numInputs + c.numHidden * c.neuronsPerHidden
  }

  /** `GetWeights` with the buffer sized by `GetNumberOfWeights()`, which
      the traversal needs: writing it back changes nothing. */
  function GetWeightsSized(net: Net): (r: seq<real>)
    ensures |r| == GetNumberOfWeights(net)
    ensures PutWeights(net, r) == Success(net)
  {
    PutLayersOwnWeights(net.layers);
    LayersWeights(net.layers)
  }

  // ----------------------------------------------------------------------
  // Lemmas about the traversal
  // ----------------------------------------------------------------------

  lemma {:induction false} NeuronsSameShapeCount(a: seq<Neuron>, b: seq<Neuron>)
    requires NeuronsSameShape(a, b)
    ensures NeuronsWeightCount(a) == NeuronsWeightCount(b)
    decreases |a|
  {
    if |a| > 0 {
      NeuronsSameShapeCount(a[1..], b[1..]);
    }
  }

  lemma {:induction false} LayersSameShapeCount(a: seq<NeuronLayer>, b: seq<NeuronLayer>)
    requires LayersSameShape(a, b)
    ensures LayersWeightCount(a) == LayersWeightCount(b)
    decreases |a|
  {
    if |a| > 0 {
      NeuronsSameShapeCount(a[0].neurons, b[0].neurons);
      LayersSameShapeCount(a[1..], b[1..]);
    }
  }

  /** Writing a neuron run's own weights back leaves it unchanged. */
  lemma {:induction false} PutNeuronsOwnWeights(ns: seq<Neuron>)
    ensures PutNeurons(ns, NeuronsWeights(ns)) == ns
    decreases |ns|
  {
    if |ns| > 0 {
      var w := NeuronsWeights(ns);
      var k := |ns[0].weights|;
      assert w[..k] == ns[0].weights;
      assert w[k..] == NeuronsWeights(ns[1..]);
      PutNeuronsOwnWeights(ns[1..]);
    }
  }

  lemma {:induction false} PutLayersOwnWeights(ls: seq<NeuronLayer>)
    ensures PutLayers(ls, LayersWeights(ls)) == ls
    decreases |ls|
  {
    if |ls| > 0 {
      var w := LayersWeights(ls);
      var k := NeuronsWeightCount(ls[0].neurons);
      PutNeuronsPrefix(ls[0].neurons, NeuronsWeights(ls[0].neurons), w);
      PutNeuronsOwnWeights(ls[0].neurons);
      assert w[k..] == LayersWeights(ls[1..]);
      PutLayersOwnWeights(ls[1..]);
    }
  }

  /** `PutNeurons` only reads the first `NeuronsWeightCount` entries. */
  lemma {:induction false} PutNeuronsPrefix(ns: seq<Neuron>, w: seq<real>, w': seq<real>)
    requires |w| >= NeuronsWeightCount(ns) && |w'| >= NeuronsWeightCount(ns)
    requires w[..NeuronsWeightCount(ns)] == w'[..NeuronsWeightCount(ns)]
    ensures PutNeurons(ns, w) == PutNeurons(ns, w')
    decreases |ns|
  {
    if |ns| > 0 {
      var k := |ns[0].weights|;
      var n := NeuronsWeightCount(ns);
      assert w[..k] == w[..n][..k] == w'[..n][..k] == w'[..k];
      assert w[k..][..n - k] == w[k..n] == w'[k..n] == w'[k..][..n - k];
      PutNeuronsPrefix(ns[1..], w[k..], w'[k..]);
    }
  }

  /** Reading the weights after `PutWeights(w)` yields the prefix of `w`
      in the same order; `GetWeights` as written agrees only when its
      buffer length equals the weight count. */
  lemma GetAfterPut(net: Net, w: seq<real>)
    requires PutWeights(net, w).Success?
    ensures GetWeightsSized(PutWeights(net, w).value) == w[..GetNumberOfWeights(net)]
    ensures GetNumberOfWeights(net) == BufferLength(net.config) ==>
              GetWeights(PutWeights(net, w).value) == Success(w[..GetNumberOfWeights(net)])
  {
    var n' := PutWeights(net, w).value;
    if GetNumberOfWeights(net) == BufferLength(net.config) {
      var r := GetWeights(n').value;
      assert r == r[..GetNumberOfWeights(n')];
    }
  }

  // ----------------------------------------------------------------------
  // The weight-count formula
  // ----------------------------------------------------------------------

  function ExpectedWeightCount(c: NetConfig): nat {
    if c.numHidden == 0 then c.numOutputs * (c.numInputs + 1)
    else
      c.neuronsPerHidden * (c.numInputs + 1)
      + (c.numHidden - 1) * (c.neuronsPerHidden * (c.neuronsPerHidden + 1))
      + c.numOutputs * (c.neuronsPerHidden + 1)
  }

  lemma {:induction false} UniformNeuronsCount(ns: seq<Neuron>, fanIn: nat)
    requires forall j :: 0 <= j < |ns| ==> |ns[j].weights| == fanIn + 1
    ensures NeuronsWeightCount(ns) == |ns| * (fanIn + 1)
    decreases |ns|
  {
    if |ns| > 0 {
      UniformNeuronsCount(ns[1..], fanIn);
      assert |ns| * (fanIn + 1) == (fanIn + 1) + (|ns| - 1) * (fanIn + 1);
    }
  }

  lemma {:induction false} UniformLayersCount(ls: seq<NeuronLayer>, perLayer: nat)
    requires forall i :: 0 <= i < |ls| ==> NeuronsWeightCount(ls[i].neurons) == perLayer
    ensures LayersWeightCount(ls) == |ls| * perLayer
    decreases |ls|
  {
    if |ls| > 0 {
      UniformLayersCount(ls[1..], perLayer);
      assert |ls| * perLayer == perLayer + (|ls| - 1) * perLayer;
    }
  }

  lemma {:induction false} LayersCountAppend(a: seq<NeuronLayer>, b: seq<NeuronLayer>)
    ensures LayersWeightCount(a + b) == LayersWeightCount(a) + LayersWeightCount(b)
    decreases |a|
  {
    if |a| > 0 {
      assert (a + b)[0] == a[0];
      assert (a + b)[1..] == a[1..] + b;
      LayersCountAppend(a[1..], b);
    } else {
      assert a + b == b;
    }
  }

  /** The number of weights of a constructed network, layer by layer:
      NO*(NI+1) without hidden layers, otherwise NPH*(NI+1) for the first
      hidden layer, NPH*(NPH+1) for each further one and NO*(NPH+1) for the
      output layer. */
  lemma WeightCountFormula(net: Net)
    requires Valid(net)
    ensures GetNumberOfWeights(net) == ExpectedWeightCount(net.config)
  {
    var c := net.config;
    var ls := net.layers;
    LayerCount(net, 0);
    if c.numHidden == 0 {
      assert ls[1..] == [];
      assert LayersWeightCount(ls[1..]) == 0;
      assert LayerSize(c, 0) == c.numOutputs && FanIn(c, 0) == c.numInputs;
      assert GetNumberOfWeights(net) == NeuronsWeightCount(ls[0].neurons);
    } else {
      HiddenWeightCount(net);
    }
  }

  /** `WeightCountFormula` for a network with hidden layers. */
  lemma HiddenWeightCount(net: Net)
    requires Valid(net) && net.config.numHidden > 0
    ensures GetNumberOfWeights(net) == ExpectedWeightCount(net.config)
  {
    var ls := net.layers;
    var mid := ls[1..net.config.numHidden];
    SplitCount(ls, mid);
    FirstHiddenCount(net);
    MiddleCount(net, mid);
    OutputCount(net);
  }

  lemma FirstHiddenCount(net: Net)
    requires Valid(net) && net.config.numHidden > 0
    ensures NeuronsWeightCount(net.layers[0].neurons)
              == net.config.neuronsPerHidden * (net.config.numInputs + 1)
  {
    LayerCount(net, 0);
  }

  lemma OutputCount(net: Net)
    requires Valid(net)
    ensures NeuronsWeightCount(net.layers[net.config.numHidden].neurons)
              == net.config.numOutputs * (FanIn(net.config, net.config.numHidden) + 1)
  {
    LayerCount(net, net.config.numHidden);
  }

  /** The hidden layers after the first each hold NPH*(NPH+1) weights. */
  lemma MiddleCount(net: Net, mid: seq<NeuronLayer>)
    requires Valid(net) && net.config.numHidden > 0 && mid == net.layers[1..net.config.numHidden]
    ensures LayersWeightCount(mid)
              == (net.config.numHidden - 1) * (net.config.neuronsPerHidden * (net.config.neuronsPerHidden + 1))
  {
    var perHidden := net.config.neuronsPerHidden * (net.config.neuronsPerHidden + 1);
    forall i | 0 <= i < |mid|
      ensures NeuronsWeightCount(mid[i].neurons) == perHidden
    {
      assert mid[i] == net.layers[i + 1];
      LayerCount(net, i + 1);
    }
    UniformLayersCount(mid, perHidden);
  }

  lemma SplitCount(ls: seq<NeuronLayer>, mid: seq<NeuronLayer>)
    requires |ls| >= 2 && mid == ls[1..|ls| - 1]
    ensures LayersWeightCount(ls) == NeuronsWeightCount(ls[0].neurons)
              + LayersWeightCount(mid) + NeuronsWeightCount(ls[|ls| - 1].neurons)
  {
    var last := ls[|ls| - 1];
    assert ls[1..] == mid + [last];
    LayersCountAppend(mid, [last]);
    assert [last][1..] == [];
  }

  lemma LayerCount(net: Net, i: nat)
    requires Valid(net) && i < |net.layers|
    ensures NeuronsWeightCount(net.layers[i].neurons)
              == LayerSize(net.config, i) * (FanIn(net.config, i) + 1)
  {
    UniformNeuronsCount(net.layers[i].neurons, FanIn(net.config, i));
  }

  /** With the program's default configuration (4 inputs, 1 hidden layer of
      6 neurons, 2 outputs) the network has 44 weights while `GetWeights`
      allocates 4 + 1*6 = 10 slots, so `GetWeights` throws. */
  lemma GetWeightsThrowsWithDefaults(net: Net)
    requires Valid(net)
    requires net.config.numInputs == 4 && net.config.numHidden == 1
    requires net.config.neuronsPerHidden == 6 && net.config.numOutputs == 2
    ensures GetNumberOfWeights(net) == 44
    ensures BufferLength(net.config) == 10
    ensures GetWeights(net) == Failure(IndexOutOfRange)
  {
    WeightCountFormula(net);
  }

  // ----------------------------------------------------------------------
  // Evaluation
  // ----------------------------------------------------------------------

  /** w[0]*in[0] + ... + w[|w|-1]*in[|w|-1], accumulated from index 0. */
  function WeightedSum(w: seq<real>, inputs: seq<real>): real
    requires |w| <= |inputs|
    decreases |w|
  {
    if |w| == 0 then 0.0
    else WeightedSum(w[..|w| - 1], inputs) + w[|w| - 1] * inputs[|w| - 1]
  }

  /** A neuron's net input: the weighted inputs plus the last weight times
      the bias value. */
  function NetInput(n: Neuron, inputs: seq<real>, bias: real): real
    requires 1 <= |n.weights| <= |inputs| + 1
  {
    var fanIn := |n.weights| - 1;
    WeightedSum(n.weights[..fanIn], inputs) + n.weights[fanIn] * bias
  }

  /** `Sigmoid(activation, response)` = 1 / (1 + e^(-activation/response)). */
  function Sigmoid(activation: real, response: real, exp: real -> real): (r: real)
    requires response != 0.0 && PositiveExp(exp)
    ensures 0.0 < r < 1.0
  {
    var e := exp(-activation / response);
    var d := 1.0 + e;
    assert d > 1.0;
    var r := 1.0 / d;
    assert r * d == 1.0;
    r
  }

  lemma SigmoidAtZero(response: real, exp: real -> real)
    requires response != 0.0 && PositiveExp(exp) && exp(0.0) == 1.0
    ensures Sigmoid(0.0, response, exp) == 0.5
  {
    assert -0.0 / response == 0.0;
  }

  /** One layer's outputs: neuron `j` writes output `j`. */
  function LayerOutputs(l: NeuronLayer, inputs: seq<real>, c: NetConfig, exp: real -> real): (out: seq<real>)
    requires forall j :: 0 <= j < |l.neurons| ==> 1 <= |l.neurons[j].weights| <= |inputs| + 1
    requires c.activationResponse != 0.0 && PositiveExp(exp)
    ensures |out| == |l.neurons|
    ensures forall j :: 0 <= j < |out| ==> 0.0 < out[j] < 1.0
  {
    seq(|l.neurons|, j requires 0 <= j < |l.neurons| =>
      Sigmoid(NetInput(l.neurons[j], inputs, c.bias), c.activationResponse, exp))
  }

  /** Each layer's neurons have one weight per output of the layer before
      (or per network input, for the first layer) plus the bias weight. */
  predicate Chained(ls: seq<NeuronLayer>, width: nat)
    decreases |ls|
  {
    |ls| == 0 ||
      ((forall j :: 0 <= j < |ls[0].neurons| ==> |ls[0].neurons[j].weights| == width + 1)
       && Chained(ls[1..], |ls[0].neurons|))
  }

  /** The layer loop of `Update`: each layer's outputs are the next
      layer's inputs. */
  function FeedForward(ls: seq<NeuronLayer>, inputs: seq<real>, c: NetConfig, exp: real -> real): (out: seq<real>)
    requires Chained(ls, |inputs|)
    requires c.activationResponse != 0.0 && PositiveExp(exp)
    ensures |ls| == 0 ==> out == inputs
    ensures |ls| > 0 ==> |out| == |ls[|ls| - 1].neurons|
    ensures |ls| > 0 ==> forall k :: 0 <= k < |out| ==> 0.0 < out[k] < 1.0
    decreases |ls|
  {
    if |ls| == 0 then inputs
    else FeedForward(ls[1..], LayerOutputs(ls[0], inputs, c, exp), c, exp)
  }

  lemma {:induction false} ValidIsChained(net: Net, i: nat)
    requires Valid(net) && i <= net.config.numHidden
    ensures Chained(net.layers[i..], FanIn(net.config, i))
    decreases net.config.numHidden - i
  {
    var ls := net.layers[i..];
    assert ls[0] == net.layers[i];
    if i < net.config.numHidden {
      ValidIsChained(net, i + 1);
      assert ls[1..] == net.layers[i + 1..];
    } else {
      assert ls[1..] == [];
    }
  }

  /** `Update`: an empty result when the input length differs from
      `NumInputs`, otherwise one value in (0, 1) per output neuron. */
  function Update(net: Net, input: seq<real>, exp: real -> real): (out: seq<real>)
    requires Valid(net)
    requires net.config.activationResponse != 0.0 && PositiveExp(exp)
    ensures |input| != net.config.numInputs ==> out == []
    ensures |input| == net.config.numInputs ==>
      && |out| == net.config.numOutputs
      && forall k :: 0 <= k < |out| ==> 0.0 < out[k] < 1.0
  {
    if |input| != net.config.numInputs then []
    else
      ValidIsChained(net, 0);
      assert net.layers[0..] == net.layers;
      FeedForward(net.layers, input, net.config, exp)
  }

  /** Without hidden layers, output `j` is the sigmoid of neuron `j`'s net
      input: sum_k w[k]*in[k] over the network inputs plus the last weight
      times the bias value. */
  lemma SingleLayerUpdate(net: Net, input: seq<real>, exp: real -> real, j: nat)
    requires Valid(net) && net.config.numHidden == 0
    requires net.config.activationResponse != 0.0 && PositiveExp(exp)
    requires |input| == net.config.numInputs && j < net.config.numOutputs
    ensures |net.layers[0].neurons[j].weights| == |input| + 1
    ensures Update(net, input, exp)[j] ==
      Sigmoid(NetInput(net.layers[0].neurons[j], input, net.config.bias),
              net.config.activationResponse, exp)
  {
    var c := net.config;
    ValidIsChained(net, 0);
    assert net.layers[0..] == net.layers;
    assert net.layers[1..] == [];
    var out0 := LayerOutputs(net.layers[0], input, c, exp);
    assert FeedForward(net.layers, input, c, exp) == FeedForward(net.layers[1..], out0, c, exp);
    assert FeedForward(net.layers, input, c, exp) == out0;
    assert Update(net, input, exp) == out0;
    var n := net.layers[0].neurons[j];
    assert |n.weights| - 1 == c.numInputs;
    assert out0[j] == Sigmoid(NetInput(n, input, c.bias), c.activationResponse, exp);
  }

  /** The width of the values the last of `ls` produces: `width` itself
      when there are no layers. */
  function LastWidth(ls: seq<NeuronLayer>, width: nat): nat {
    if |ls| == 0 then width else |ls[|ls| - 1].neurons|
  }

  /** A chain extended by one layer is a chain exactly when the new layer
      takes the previous layer's outputs (plus the bias). */
  lemma {:induction false} ChainedSnoc(ls: seq<NeuronLayer>, l: NeuronLayer, width: nat)
    ensures Chained(ls + [l], width) <==>
      Chained(ls, width) &&
      forall j :: 0 <= j < |l.neurons| ==> |l.neurons[j].weights| == LastWidth(ls, width) + 1
    decreases |ls|
  {
    if |ls| == 0 {
      assert ls + [l] == [l];
      assert [l][1..] == [];
    } else {
      assert (ls + [l])[0] == ls[0];
      assert (ls + [l])[1..] == ls[1..] + [l];
      ChainedSnoc(ls[1..], l, |ls[0].neurons|);
    }
  }

  /** The last layer of the loop in `Update` sees the outputs of all the
      layers before it: running the chain with one more layer is running
      that layer on the chain's result. */
  lemma {:induction false} FeedForwardSnoc(ls: seq<NeuronLayer>, l: NeuronLayer, inputs: seq<real>,
                                           c: NetConfig, exp: real -> real)
    requires Chained(ls + [l], |inputs|)
    requires c.activationResponse != 0.0 && PositiveExp(exp)
    ensures Chained(ls, |inputs|)
    ensures forall j :: 0 <= j < |l.neurons| ==>
      |l.neurons[j].weights| == |FeedForward(ls, inputs, c, exp)| + 1
    ensures FeedForward(ls + [l], inputs, c, exp) ==
      LayerOutputs(l, FeedForward(ls, inputs, c, exp), c, exp)
    decreases |ls|
  {
    ChainedSnoc(ls, l, |inputs|);
    if |ls| == 0 {
      assert ls + [l] == [l];
      assert [l][1..] == [];
    } else {
      var o := LayerOutputs(ls[0], inputs, c, exp);
      assert (ls + [l])[0] == ls[0];
      assert (ls + [l])[1..] == ls[1..] + [l];
      FeedForwardSnoc(ls[1..], l, o, c, exp);
    }
  }

  /** For any number of hidden layers, output `j` of `Update` is the
      sigmoid of output neuron `j`'s net input over the last hidden layer's
      outputs (the network inputs when there is no hidden layer). */
  lemma OutputLayerUpdate(net: Net, input: seq<real>, exp: real -> real, j: nat)
    requires Valid(net)
    requires net.config.activationResponse != 0.0 && PositiveExp(exp)
    requires |input| == net.config.numInputs && j < net.config.numOutputs
    ensures var h := net.config.numHidden;
      && Chained(net.layers[..h], |input|)
      && |net.layers[h].neurons[j].weights| ==
           |FeedForward(net.layers[..h], input, net.config, exp)| + 1
      && Update(net, input, exp)[j] ==
           Sigmoid(NetInput(net.layers[h].neurons[j],
                            FeedForward(net.layers[..h], input, net.config, exp),
                            net.config.bias),
                   net.config.activationResponse, exp)
  {
    var h := net.config.numHidden;
    ValidIsChained(net, 0);
    assert net.layers[0..] == net.layers;
    assert net.layers == net.layers[..h] + [net.layers[h]];
    FeedForwardSnoc(net.layers[..h], net.layers[h], input, net.config, exp);
  }
}
