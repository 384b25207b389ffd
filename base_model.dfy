/** `BaseModel` of the Python wrappers (wrappers/python/nntile/model/base_model.py):
    a model is a list of activations, a list of layers and a list of
    parameters. The layers and tensors are Python objects whose code is not
    part of this model; they are identified by number, and every method
    the model calls on them is recorded, in order, in a call log. */
module BaseModel {
  import opened Wrappers

  /** Identity of a tensor (a `TensorMoments` object). */
  type TensorId = int

  /** What the model reads of a layer: its identity, its `parameters`
      list and its `activations_output` list. */
  datatype Layer = Layer(id: int, parameters: seq<TensorId>, activationsOutput: seq<TensorId>)

  /** An element of `parameters` or of `activations`: a tensor, or a whole
      list of tensors (what `list.append` of a list leaves behind). */
  datatype Entry = Tensor(t: TensorId) | Nested(ts: seq<TensorId>)

  /** A method called on a layer or on a tensor. */
  datatype Call = Forward(layer: int) | Backward(layer: int) | UnregisterLayer(layer: int) | UnregisterTensor(t: TensorId)

  /** What Python raises when `unregister` is called on a list. */
  const NoUnregister := "'list' object has no attribute 'unregister'"

  /** The parameters of the layers, concatenated in layer order. */
  function Flatten(layers: seq<Layer>): seq<TensorId>
  {
    if layers == [] then [] else Flatten(layers[..|layers| - 1]) + layers[|layers| - 1].parameters
  }

  /** Tensors as list elements. */
  function Entries(ts: seq<TensorId>): (r: seq<Entry>)
    ensures |r| == |ts|
    ensures forall i :: 0 <= i < |ts| ==> r[i] == Tensor(ts[i])
  {
    seq(|ts|, i requires 0 <= i < |ts| => Tensor(ts[i]))
  }

  /** A list that holds tensors only, no nested list. */
  predicate TensorsOnly(es: seq<Entry>)
  {
    forall i :: 0 <= i < |es| ==> es[i].Tensor?
  }

  /** `reversed(s)`. */
  function Reversed<T>(s: seq<T>): seq<T>
  {
    if s == [] then [] else [s[|s| - 1]] + Reversed(s[..|s| - 1])
  }

  /** Element i of `reversed(s)` is element |s| - 1 - i of s. */
  lemma {:induction false} ReversedAt<T>(s: seq<T>, i: int)
    requires 0 <= i < |s|
    ensures |Reversed(s)| == |s| && Reversed(s)[i] == s[|s| - 1 - i]
  {
    ReversedLength(s);
    if i > 0 {
      ReversedAt(s[..|s| - 1], i - 1);
    }
  }

  lemma {:induction false} ReversedLength<T>(s: seq<T>)
    ensures |Reversed(s)| == |s|
  {
    if s != [] {
      ReversedLength(s[..|s| - 1]);
    }
  }

  /** A list built from tensors only never holds a nested list. */
  lemma EntriesFlat(ts: seq<TensorId>)
    ensures TensorsOnly(Entries(ts))
    ensures forall e :: e in Entries(ts) ==> e.Tensor?
  {
  }

  /** Extending by one more layer's parameters is the parameter list of
      one more layer: `extend` keeps `parameters` the concatenation of
      the layers' parameters. */
  lemma {:induction false} ExtendKeepsFlat(layers: seq<Layer>, layer: Layer)
    ensures Entries(Flatten(layers)) + Entries(layer.parameters) == Entries(Flatten(layers + [layer]))
  {
    assert (layers + [layer])[..|layers|] == layers;
  }

  /** `append` of the list `layer.parameters` always leaves `parameters`
      different from the concatenation of the layers' parameters: it adds
      one nested element where extend would add the tensors themselves. */
  lemma {:induction false} AppendNests(layers: seq<Layer>, layer: Layer)
    ensures Nested(layer.parameters) in Entries(Flatten(layers)) + [Nested(layer.parameters)]
    ensures Entries(Flatten(layers)) + [Nested(layer.parameters)] != Entries(Flatten(layers + [layer]))
  {
    var appended := Entries(Flatten(layers)) + [Nested(layer.parameters)];
    EntriesFlat(Flatten(layers + [layer]));
    assert appended[|appended| - 1] == Nested(layer.parameters);
  }

  /** Example: a model of one layer with parameters [1, 2], after
      `append` of a layer with parameters [3], holds three elements, the
      last a nested list, where the flattened list would hold three tensors. */
  lemma AppendExample()
    ensures Entries(Flatten([Layer(0, [1, 2], [10])])) + [Nested([3])] == [Tensor(1), Tensor(2), Nested([3])]
    ensures Entries(Flatten([Layer(0, [1, 2], [10]), Layer(1, [3], [11])])) == [Tensor(1), Tensor(2), Tensor(3)]
  {
    assert [Layer(0, [1, 2], [10]), Layer(1, [3], [11])][..1] == [Layer(0, [1, 2], [10])];
    assert [Layer(0, [1, 2], [10])][..0] == [];
  }

  /** How far `for x in activations: x.unregister()` gets: the position
      of the first nested list, where Python raises, or the length of the
      list when it holds tensors only. */
  function FirstNested(es: seq<Entry>): (r: nat)
    ensures r <= |es|
    ensures forall i :: 0 <= i < r ==> es[i].Tensor?
    ensures r < |es| ==> es[r].Nested?
  {
    if es == [] || es[0].Nested? then 0 else 1 + FirstNested(es[1..])
  }

  /** The loop over the activations runs to the end exactly when they are
      all tensors. */
  lemma FirstNestedAtEnd(es: seq<Entry>)
    ensures FirstNested(es) == |es| <==> TensorsOnly(es)
  {
  }

  /** A nested list appended to the activations is never reached by the
      loop: it stops where it stopped before, or at the new element. */
  lemma {:induction false} AppendNestedStops(es: seq<Entry>, ts: seq<TensorId>)
    ensures FirstNested(es + [Nested(ts)]) == FirstNested(es)
  {
    var r := FirstNested(es);
    var both := es + [Nested(ts)];
    assert both[r].Nested?;
    assert forall i :: 0 <= i < r ==> both[i] == es[i];
  }

  /** Tensors appended one by one to a list of tensors are all reached. */
  lemma {:induction false} ExtendTensorsReached(es: seq<Entry>, ts: seq<TensorId>)
    requires TensorsOnly(es)
    ensures FirstNested(es + Entries(ts)) == |es| + |ts|
  {
    var both := es + Entries(ts);
    assert TensorsOnly(both) by {
      forall i | 0 <= i < |both|
        ensures both[i].Tensor?
      {
        if i >= |es| {
          assert both[i] == Entries(ts)[i - |es|];
        }
      }
    }
    FirstNestedAtEnd(both);
  }

  /** The calls of `forward_async`: each layer's forward, in list order. */
  function ForwardCalls(layers: seq<Layer>): (r: seq<Call>)
    ensures |r| == |layers|
  {
    seq(|layers|, i requires 0 <= i < |layers| => Forward(layers[i].id))
  }

  /** The calls of `backward_async`: each layer's backward, over
      `reversed(layers)`. */
  function BackwardCalls(layers: seq<Layer>): (r: seq<Call>)
    ensures |r| == |layers|
  {
    ReversedLength(layers);
    var rev := Reversed(layers);
    seq(|rev|, i requires 0 <= i < |rev| => Backward(rev[i].id))
  }

  /** Backward visits the layers in exactly the reverse of forward's order. */
  lemma BackwardMirrorsForward(layers: seq<Layer>)
    ensures |BackwardCalls(layers)| == |ForwardCalls(layers)|
    ensures forall i :: 0 <= i < |layers| ==>
      BackwardCalls(layers)[i] == Backward(ForwardCalls(layers)[|layers| - 1 - i].layer)
  {
    ReversedLength(layers);
    forall i | 0 <= i < |layers|
      ensures BackwardCalls(layers)[i] == Backward(ForwardCalls(layers)[|layers| - 1 - i].layer)
    {
      ReversedAt(layers, i);
    }
  }

  /** The calls of `unregister`: every layer in list order, then every
      activation in list order up to the first nested list, where the
      loop raises. */
  function UnregisterCalls(layers: seq<Layer>, activations: seq<Entry>): (r: seq<Call>)
    ensures |r| == |layers| + FirstNested(activations)
  {
    var n := FirstNested(activations);
    seq(|layers|, i requires 0 <= i < |layers| => UnregisterLayer(layers[i].id))
    + seq(n, i requires 0 <= i < n => UnregisterTensor(activations[i].t))
  }

  /** One more call of `unregister`: call k is the layer k, or, past the
      layers, the activation k - |layers|. */
  lemma UnregisterCallsStep(layers: seq<Layer>, activations: seq<Entry>, k: int)
    requires 0 <= k < |layers| + FirstNested(activations)
    ensures UnregisterCalls(layers, activations)[..k + 1] == UnregisterCalls(layers, activations)[..k]
      + [if k < |layers| then UnregisterLayer(layers[k].id) else UnregisterTensor(activations[k - |layers|].t)]
  {
    var c := UnregisterCalls(layers, activations);
    assert c[..k + 1] == c[..k] + [c[k]];
  }

  /** Every layer is unregistered before any activation. */
  lemma LayersBeforeActivations(layers: seq<Layer>, activations: seq<Entry>, i: int, j: int)
    requires 0 <= i < j < |layers| + FirstNested(activations)
    requires UnregisterCalls(layers, activations)[j].UnregisterLayer?
    ensures UnregisterCalls(layers, activations)[i].UnregisterLayer?
  {
  }

  /** After `append` as written, the new layer's output tensors are never
      unregistered, whatever the earlier activations were. */
  lemma AppendedOutputsSkipped(layers: seq<Layer>, activations: seq<Entry>, layer: Layer)
    ensures UnregisterCalls(layers + [layer], activations + [Nested(layer.activationsOutput)])
      == UnregisterCalls(layers + [layer], activations)
  {
    AppendNestedStops(activations, layer.activationsOutput);
  }

  /** Example: activations [7] and one layer, then `append` of a layer whose
      output list is [8]: the activations become [7, [8]], and `unregister`
      reaches tensor 7 and raises at [8]; tensor 8 is never unregistered. */
  lemma AppendActivationsExample()
    ensures [Tensor(7)] + [Nested([8])] == [Tensor(7), Nested([8])]
    ensures FirstNested([Tensor(7), Nested([8])]) == 1
    ensures UnregisterCalls([Layer(0, [1], [7]), Layer(1, [2], [8])], [Tensor(7), Nested([8])])
      == [UnregisterLayer(0), UnregisterLayer(1), UnregisterTensor(7)]
  {
    assert [Tensor(7), Nested([8])][1..] == [Nested([8])];
  }

  /** The model object. */
  class Model {
    var activations: seq<Entry>
    var layers: seq<Layer>
    var parameters: seq<Entry>
    /** The methods called so far on layers and tensors. */
    var calls: seq<Call>

    /** `parameters` is the concatenation of the layers' parameters and
        `activations` holds tensors only. */
    predicate Flat()
      reads this
    {
      parameters == Entries(Flatten(layers)) && TensorsOnly(activations)
    }

    /** `__init__`: keeps both lists and extends `parameters` by each
        layer's parameters in turn. */
    constructor (activations: seq<TensorId>, layers: seq<Layer>)
      ensures this.activations == Entries(activations) && this.layers == layers && calls == []
      ensures parameters == Entries(Flatten(layers)) && Flat()
    {
      var ps: seq<Entry> := [];
      var i := 0;
      while i < |layers|
        invariant 0 <= i <= |layers|
        invariant ps == Entries(Flatten(layers[..i]))
      {
        ExtendKeepsFlat(layers[..i], layers[i]);
        assert layers[..i] + [layers[i]] == layers[..i + 1];
        ps := ps + Entries(layers[i].parameters);
        i := i + 1;
      }
      assert layers[..i] == layers;
      EntriesFlat(activations);
      this.activations := Entries(activations);
      this.layers := layers;
      parameters := ps;
      calls := [];
    }

    /** `append`, as written: the layer goes to the end of `layers`, and
        its output list and its parameter list each become one nested
        element of `activations` and of `parameters`. */
    method Append(layer: Layer)
      modifies this
      ensures activations == old(activations) + [Nested(layer.activationsOutput)]
      ensures layers == old(layers) + [layer]
      ensures parameters == old(parameters) + [Nested(layer.parameters)]
      ensures calls == old(calls)
      ensures parameters != Entries(Flatten(layers)) && !TensorsOnly(activations)
    {
      EntriesFlat(Flatten(layers + [layer]));
      activations := activations + [Nested(layer.activationsOutput)];
      layers := layers + [layer];
      parameters := parameters + [Nested(layer.parameters)];
      assert parameters[|parameters| - 1].Nested?;
      assert activations[|activations| - 1].Nested?;
    }

    /** `append` with `extend` for both lists, as `__init__` does it for
        the parameters: the model stays flat. */
    method AppendExtend(layer: Layer)
      modifies this
      ensures activations == old(activations) + Entries(layer.activationsOutput)
      ensures layers == old(layers) + [layer]
      ensures parameters == old(parameters) + Entries(layer.parameters)
      ensures calls == old(calls)
      ensures old(Flat()) ==> Flat()
    {
      ExtendKeepsFlat(layers, layer);
      if TensorsOnly(activations) {
        ExtendTensorsReached(activations, layer.activationsOutput);
        FirstNestedAtEnd(activations + Entries(layer.activationsOutput));
      }
      activations := activations + Entries(layer.activationsOutput);
      layers := layers + [layer];
      parameters := parameters + Entries(layer.parameters);
    }

    /** `forward_async`. */
    method ForwardAsync()
      modifies this
      ensures calls == old(calls) + ForwardCalls(layers)
      ensures activations == old(activations) && layers == old(layers) && parameters == old(parameters)
    {
      var i := 0;
      while i < |layers|
        invariant 0 <= i <= |layers|
        invariant calls == old(calls) + ForwardCalls(layers[..i])
        invariant activations == old(activations) && layers == old(layers) && parameters == old(parameters)
      {
        assert ForwardCalls(layers[..i + 1]) == ForwardCalls(layers[..i]) + [Forward(layers[i].id)];
        calls := calls + [Forward(layers[i].id)];
        i := i + 1;
      }
      assert layers[..i] == layers;
    }

    /** `backward_async`. */
    method BackwardAsync()
      modifies this
      ensures calls == old(calls) + BackwardCalls(layers)
      ensures activations == old(activations) && layers == old(layers) && parameters == old(parameters)
    {
      ReversedLength(layers);
      var rev := Reversed(layers);
      var i := 0;
      while i < |rev|
        invariant activations == old(activations) && layers == old(layers) && parameters == old(parameters)
        invariant 0 <= i <= |rev|
        invariant calls == old(calls) + BackwardCalls(layers)[..i]
      {
        assert BackwardCalls(layers)[..i + 1] == BackwardCalls(layers)[..i] + [Backward(rev[i].id)];
        calls := calls + [Backward(rev[i].id)];
        i := i + 1;
      }
      assert BackwardCalls(layers)[..i] == BackwardCalls(layers);
    }

    /** `unregister`: the layers, then the activations; calling
        `unregister` on a nested list raises, and the loop stops there. */
    method Unregister() returns (r: Outcome)
      modifies this
      ensures calls == old(calls) + UnregisterCalls(layers, activations)
      ensures activations == old(activations) && layers == old(layers) && parameters == old(parameters)
      ensures r.Pass? <==> TensorsOnly(activations)
      ensures r.Fail? ==> r.error == NoUnregister
    {
      var i := 0;
      while i < |layers|
        invariant 0 <= i <= |layers|
        invariant calls == old(calls) + UnregisterCalls(layers, activations)[..i]
        invariant activations == old(activations) && layers == old(layers) && parameters == old(parameters)
        decreases |layers| - i
      {
        UnregisterCallsStep(layers, activations, i);
        calls := calls + [UnregisterLayer(layers[i].id)];
        i := i + 1;
      }
      var j := 0;
      while j < |activations| && activations[j].Tensor?
        invariant 0 <= j <= FirstNested(activations)
        invariant calls == old(calls) + UnregisterCalls(layers, activations)[..|layers| + j]
        invariant activations == old(activations) && layers == old(layers) && parameters == old(parameters)
        decreases |activations| - j
      {
        UnregisterCallsStep(layers, activations, |layers| + j);
        calls := calls + [UnregisterTensor(activations[j].t)];
        j := j + 1;
      }
      assert UnregisterCalls(layers, activations)[..|layers| + j] == UnregisterCalls(layers, activations);
      FirstNestedAtEnd(activations);
      if j < |activations| {
        r := Fail(NoUnregister);
      } else {
        r := Pass;
      }
    }
  }
}
