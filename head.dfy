/** The projection heads of src/biom3d/models/head.py (lines 59-155):
    the layer list their constructors build, the weight-normalised last
    layer, the class count of the MLP head, and what the forward pass
    does to the shape of its input. Layers are tracked by kind and
    width; what they compute is not modelled. */
module Head {
  import opened Common

  /** One layer of the MLP: `nn.Linear(in, out)`, `nn.BatchNorm1d(d)`,
      `nn.GELU()`. */
  datatype Layer = Linear(inFeatures: nat, outFeatures: nat) | BatchNorm(features: nat) | Gelu

  datatype LayerKind = LinearKind | BatchNormKind | GeluKind

  function KindOf(l: Layer): LayerKind
  {
    match l
    case Linear(_, _) => LinearKind
    case BatchNorm(_) => BatchNormKind
    case Gelu => GeluKind
  }

  /** How many layers of a kind a list holds. */
  function Count(ls: seq<Layer>, k: LayerKind): nat
  {
    if ls == [] then 0 else (if KindOf(ls[0]) == k then 1 else 0) + Count(ls[1..], k)
  }

  lemma {:induction false} CountConcat(a: seq<Layer>, b: seq<Layer>, k: LayerKind)
    ensures Count(a + b, k) == Count(a, k) + Count(b, k)
  {
    if a == [] {
      assert a + b == b;
    } else {
      assert (a + b)[0] == a[0] && (a + b)[1..] == a[1..] + b;
      CountConcat(a[1..], b, k);
    }
  }

  lemma {:induction false} CountSingle(l: Layer, k: LayerKind)
    ensures Count([l], k) == if KindOf(l) == k then 1 else 0
  {
    assert [l][1..] == [];
  }

  lemma {:induction false} CountActivation(useBn: bool, width: nat, k: LayerKind)
    ensures Count(Activation(useBn, width), k)
         == if k == GeluKind || (k == BatchNormKind && useBn) then 1 else 0
  {
    var bn: seq<Layer> := if useBn then [BatchNorm(width)] else [];
    CountConcat(bn, [Gelu], k);
    CountSingle(Gelu, k);
    if useBn {
      CountSingle(BatchNorm(width), k);
    }
  }

  /** `max(nlayers, 1)` (lines 62 and 103). */
  function ClampLayers(nlayers: int): (n: nat)
    ensures n >= 1 && n >= nlayers
    ensures n == nlayers || n == 1
  {
    if nlayers < 1 then 1 else nlayers
  }

  /** The normalisation and activation after a Linear: a BatchNorm when
      `use_bn`, then a GELU. */
  function Activation(useBn: bool, width: nat): seq<Layer>
  {
    (if useBn then [BatchNorm(width)] else []) + [Gelu]
  }

  /** One pass of the loop body (lines 71-74). */
  function HiddenBlock(useBn: bool, width: nat): seq<Layer>
  {
    [Linear(width, width)] + Activation(useBn, width)
  }

  /** `k` copies of a block, one after the other. */
  function Repeat(k: nat, block: seq<Layer>): seq<Layer>
  {
    if k == 0 then [] else Repeat(k - 1, block) + block
  }

  /** The layers the constructors build for a clamped layer count `n`
      (lines 63-76 and 104-117). */
  function MlpLayers(inDim: nat, useBn: bool, n: nat, hiddenDim: nat, bottleneckDim: nat): (r: seq<Layer>)
    requires n >= 1
    ensures |r| >= 1
    ensures r[0] == Linear(inDim, if n == 1 then bottleneckDim else hiddenDim)
    ensures r[|r| - 1] == Linear(if n == 1 then inDim else hiddenDim, bottleneckDim)
  {
    if n == 1 then [Linear(inDim, bottleneckDim)]
    else
      [Linear(inDim, hiddenDim)] + Activation(useBn, hiddenDim)
      + Repeat(n - 2, HiddenBlock(useBn, hiddenDim))
      + [Linear(hiddenDim, bottleneckDim)]
  }

  /** The construction of `self.mlp`, appending to a list as the source
      does. */
  method BuildMlp(inDim: nat, useBn: bool, nlayers: int, hiddenDim: nat, bottleneckDim: nat)
    returns (layers: seq<Layer>)
    ensures layers == MlpLayers(inDim, useBn, ClampLayers(nlayers), hiddenDim, bottleneckDim)
  {
    var n := ClampLayers(nlayers);
    if n == 1 {
      return [Linear(inDim, bottleneckDim)];
    }
    layers := [Linear(inDim, hiddenDim)];
    if useBn {
      layers := layers + [BatchNorm(hiddenDim)];
    }
    layers := layers + [Gelu];
    ghost var first := layers;
    assert first == [Linear(inDim, hiddenDim)] + Activation(useBn, hiddenDim);
    var i := 0;
    while i < n - 2
      invariant 0 <= i <= n - 2
      invariant layers == first + Repeat(i, HiddenBlock(useBn, hiddenDim))
    {
      layers := layers + [Linear(hiddenDim, hiddenDim)];
      if useBn {
        layers := layers + [BatchNorm(hiddenDim)];
      }
      layers := layers + [Gelu];
      i := i + 1;
    }
    layers := layers + [Linear(hiddenDim, bottleneckDim)];
  }

  lemma {:induction false} CountRepeat(k: nat, block: seq<Layer>, kind: LayerKind)
    ensures Count(Repeat(k, block), kind) == k * Count(block, kind)
  {
    if k > 0 {
      CountRepeat(k - 1, block, kind);
      CountConcat(Repeat(k - 1, block), block, kind);
    }
  }

  /** With `nlayers <= 1` the MLP is a single Linear from the input width
      to the bottleneck (lines 62-64). */
  lemma {:induction false} SingleLayerMlp(inDim: nat, useBn: bool, nlayers: int, hiddenDim: nat, bottleneckDim: nat)
    requires nlayers <= 1
    ensures MlpLayers(inDim, useBn, ClampLayers(nlayers), hiddenDim, bottleneckDim) == [Linear(inDim, bottleneckDim)]
  {
  }

  /** An MLP of `n` layers holds `n` Linears and `n - 1` GELUs, and
      `n - 1` BatchNorms when `use_bn`, none otherwise (lines 66-76). */
  lemma {:induction false} MlpLayerCounts(inDim: nat, useBn: bool, n: nat, hiddenDim: nat, bottleneckDim: nat)
    requires n >= 1
    ensures Count(MlpLayers(inDim, useBn, n, hiddenDim, bottleneckDim), LinearKind) == n
    ensures Count(MlpLayers(inDim, useBn, n, hiddenDim, bottleneckDim), GeluKind) == n - 1
    ensures Count(MlpLayers(inDim, useBn, n, hiddenDim, bottleneckDim), BatchNormKind)
         == if useBn then n - 1 else 0
  {
    if n == 1 {
      CountSingle(Linear(inDim, bottleneckDim), LinearKind);
      CountSingle(Linear(inDim, bottleneckDim), GeluKind);
      CountSingle(Linear(inDim, bottleneckDim), BatchNormKind);
    } else {
      MlpCountsByKind(inDim, useBn, n, hiddenDim, bottleneckDim, LinearKind);
      MlpCountsByKind(inDim, useBn, n, hiddenDim, bottleneckDim, GeluKind);
      MlpCountsByKind(inDim, useBn, n, hiddenDim, bottleneckDim, BatchNormKind);
      HiddenBlockCount(useBn, hiddenDim, LinearKind);
      HiddenBlockCount(useBn, hiddenDim, GeluKind);
      HiddenBlockCount(useBn, hiddenDim, BatchNormKind);
    }
  }

  lemma {:induction false} HiddenBlockCount(useBn: bool, width: nat, kind: LayerKind)
    ensures Count(HiddenBlock(useBn, width), kind)
         == if kind == LinearKind || kind == GeluKind || (kind == BatchNormKind && useBn) then 1 else 0
  {
    CountSingle(Linear(width, width), kind);
    CountActivation(useBn, width, kind);
    CountConcat([Linear(width, width)], Activation(useBn, width), kind);
  }

  lemma {:induction false} MlpCountsByKind(inDim: nat, useBn: bool, n: nat, hiddenDim: nat, bottleneckDim: nat, kind: LayerKind)
    requires n >= 2
    ensures Count(MlpLayers(inDim, useBn, n, hiddenDim, bottleneckDim), kind)
         == (n - 1) * Count(HiddenBlock(useBn, hiddenDim), kind) + (if kind == LinearKind then 1 else 0)
  {
    var first := [Linear(inDim, hiddenDim)];
    var act := Activation(useBn, hiddenDim);
    var block := HiddenBlock(useBn, hiddenDim);
    var body := Repeat(n - 2, block);
    var last := [Linear(hiddenDim, bottleneckDim)];
    assert MlpLayers(inDim, useBn, n, hiddenDim, bottleneckDim) == first + act + body + last;
    CountConcat(first, act, kind);
    CountConcat(first + act, body, kind);
    CountConcat(first + act + body, last, kind);
    CountRepeat(n - 2, block, kind);
    CountSingle(Linear(inDim, hiddenDim), kind);
    CountSingle(Linear(hiddenDim, bottleneckDim), kind);
    CountActivation(useBn, hiddenDim, kind);
    HiddenBlockCount(useBn, hiddenDim, kind);
    assert (n - 2) * Count(block, kind) + Count(block, kind) == (n - 1) * Count(block, kind);
  }

  /** The feature width after a list of layers, or `None` when a layer
      does not accept the width it is given. */
  function Propagate(ls: seq<Layer>, width: nat): Option<nat>
  {
    if ls == [] then Some(width)
    else
      match ls[0]
      case Linear(i, o) => if width == i then Propagate(ls[1..], o) else None
      case BatchNorm(f) => if width == f then Propagate(ls[1..], width) else None
      case Gelu => Propagate(ls[1..], width)
  }

  lemma {:induction false} PropagateConcat(a: seq<Layer>, b: seq<Layer>, width: nat)
    ensures Propagate(a + b, width)
         == match Propagate(a, width) case Some(w) => Propagate(b, w) case None => None
  {
    if a == [] {
      assert a + b == b;
    } else {
      assert (a + b)[0] == a[0] && (a + b)[1..] == a[1..] + b;
      match a[0]
      case Linear(i, o) => if width == i { PropagateConcat(a[1..], b, o); }
      case BatchNorm(f) => if width == f { PropagateConcat(a[1..], b, width); }
      case Gelu => PropagateConcat(a[1..], b, width);
    }
  }

  lemma {:induction false} PropagateSingle(l: Layer, width: nat)
    ensures Propagate([l], width)
         == match l
            case Linear(i, o) => if width == i then Some(o) else None
            case BatchNorm(f) => if width == f then Some(width) else None
            case Gelu => Some(width)
  {
    assert [l][1..] == [];
  }

  lemma {:induction false} PropagateHiddenBlock(useBn: bool, width: nat)
    ensures Propagate(Activation(useBn, width), width) == Some(width)
    ensures Propagate(HiddenBlock(useBn, width), width) == Some(width)
  {
    var bn: seq<Layer> := if useBn then [BatchNorm(width)] else [];
    PropagateConcat(bn, [Gelu], width);
    PropagateSingle(Gelu, width);
    if useBn {
      PropagateSingle(BatchNorm(width), width);
    }
    PropagateConcat([Linear(width, width)], Activation(useBn, width), width);
    PropagateSingle(Linear(width, width), width);
  }

  lemma {:induction false} PropagateRepeat(k: nat, useBn: bool, width: nat)
    ensures Propagate(Repeat(k, HiddenBlock(useBn, width)), width) == Some(width)
  {
    if k > 0 {
      PropagateHiddenBlock(useBn, width);
      PropagateRepeat(k - 1, useBn, width);
      PropagateConcat(Repeat(k - 1, HiddenBlock(useBn, width)), HiddenBlock(useBn, width), width);
    }
  }

  /** The widths chain: the MLP accepts exactly inputs of width `in_dim`
      and turns them into width `bottleneck_dim` (lines 63-76). */
  lemma {:induction false} MlpChains(inDim: nat, useBn: bool, n: nat, hiddenDim: nat, bottleneckDim: nat, width: nat)
    requires n >= 1
    ensures Propagate(MlpLayers(inDim, useBn, n, hiddenDim, bottleneckDim), width)
         == if width == inDim then Some(bottleneckDim) else None
  {
    if n > 1 {
      var head := [Linear(inDim, hiddenDim)];
      var act := Activation(useBn, hiddenDim);
      var body := Repeat(n - 2, HiddenBlock(useBn, hiddenDim));
      var tail := [Linear(hiddenDim, bottleneckDim)];
      PropagateConcat(head + act + body, tail, width);
      PropagateConcat(head + act, body, width);
      PropagateConcat(head, act, width);
      PropagateRepeat(n - 2, useBn, hiddenDim);
      PropagateHiddenBlock(useBn, hiddenDim);
      PropagateSingle(Linear(inDim, hiddenDim), width);
      PropagateSingle(Linear(hiddenDim, bottleneckDim), hiddenDim);
    } else {
      PropagateSingle(Linear(inDim, bottleneckDim), width);
    }
  }

  function Product(s: seq<nat>): nat
  {
    if s == [] then 1 else s[0] * Product(s[1..])
  }

  /** `x.view(x.size(0), -1)` on the shape (lines 90-91 and 148-149): a
      0-d tensor has no first dimension, and with an empty first dimension
      the `-1` is ambiguous; both raise. */
  function Flatten(shape: seq<nat>): (r: Option<seq<nat>>)
    ensures r.Some? <==> |shape| > 0 && shape[0] > 0
    ensures r.Some? ==> |r.value| == 2 && r.value[0] == shape[0] && r.value[0] * r.value[1] == Product(shape)
  {
    if shape == [] || shape[0] == 0 then None else Some([shape[0], Product(shape[1..])])
  }

  /** The input as a batch of rows: kept when already 2-D, flattened
      otherwise. */
  function AsRows(shape: seq<nat>): (r: Option<seq<nat>>)
    ensures r.Some? ==> |r.value| == 2
  {
    if |shape| == 2 then Some(shape) else Flatten(shape)
  }

  /** The length of `[:stop]` on a dimension of size `n`: Python counts a
      negative stop from the end and clamps to the dimension. */
  function SliceStop(stop: int, n: nat): (r: nat)
    ensures r <= n
    ensures 0 <= stop ==> r == if stop < n then stop else n
    ensures stop < 0 ==> r == if n + stop > 0 then n + stop else 0
  {
    if stop >= 0 then (if stop < n then stop else n)
    else if n + stop > 0 then n + stop else 0
  }

  /** `x[:, :stop]` on the rows of a batch. */
  function TakeColumns<X>(rows: seq<seq<X>>, stop: int): (r: seq<seq<X>>)
    ensures |r| == |rows|
    ensures forall i :: 0 <= i < |r| ==> r[i] == rows[i][..SliceStop(stop, |rows[i]|)]
  {
    if rows == [] then [] else [rows[0][..SliceStop(stop, |rows[0]|)]] + TakeColumns(rows[1..], stop)
  }

  /** The weight-normalised last layer `Linear(bottleneck_dim, out_dim)`:
      its scale `weight_g`, one entry per output, whether the scale
      trains, and its direction `weight_v`. */
  datatype WeightNorm<W> = WeightNorm(inFeatures: nat, outFeatures: nat, scale: seq<real>,
                                      scaleTrainable: bool, direction: W)

  function Ones(n: nat): (r: seq<real>)
    ensures |r| == n && forall i :: 0 <= i < n ==> r[i] == 1.0
  {
    seq(n, _ => 1.0)
  }

  /** The last layer as the constructors leave it (lines 78-81 and
      121-126): scale filled with ones, frozen when `norm_last_layer`. */
  function NewLastLayer<W>(bottleneckDim: nat, outDim: nat, normLastLayer: bool, direction: W): WeightNorm<W>
  {
    WeightNorm(bottleneckDim, outDim, Ones(outDim), !normLastLayer, direction)
  }

  /** The output shape of a head's forward pass: rows, then the MLP, then
      (L2 normalisation keeps the shape) the last layer when `useLast`,
      whose columns are cut to `keep` when given. */
  function ForwardShape<W>(mlp: seq<Layer>, last: WeightNorm<W>, keep: Option<int>,
                           shape: seq<nat>, useLast: bool): (r: Option<seq<nat>>)
    ensures r.Some? ==> AsRows(shape).Some? && Propagate(mlp, AsRows(shape).value[1]).Some?
    ensures r.Some? ==> |r.value| == 2 && r.value[0] == AsRows(shape).value[0]
    ensures r.Some? && !useLast ==> r.value[1] == Propagate(mlp, AsRows(shape).value[1]).value
    ensures r.Some? && useLast ==> r.value[1] <= last.outFeatures
  {
    match AsRows(shape)
    case None => None
    case Some(rows) =>
      match Propagate(mlp, rows[1])
      case None => None
      case Some(w) =>
        if !useLast then Some([rows[0], w])
        else if w != last.inFeatures then None
        else
          match keep
          case None => Some([rows[0], last.outFeatures])
          case Some(stop) => Some([rows[0], SliceStop(stop, last.outFeatures)])
  }

  /** A head's forward pass accepts exactly the inputs whose rows have
      width `in_dim`; its output has one row per input row and is
      `bottleneck_dim` wide without the last layer, `out_dim` wide (cut
      to `keep`) with it. */
  lemma {:induction false} HeadForwardShape<W>(inDim: nat, useBn: bool, nlayers: int, hiddenDim: nat, bottleneckDim: nat,
                            last: WeightNorm<W>, keep: Option<int>, shape: seq<nat>, useLast: bool)
    requires last.inFeatures == bottleneckDim
    ensures var r := ForwardShape(MlpLayers(inDim, useBn, ClampLayers(nlayers), hiddenDim, bottleneckDim),
                                  last, keep, shape, useLast);
            (r.Some? <==> AsRows(shape).Some? && AsRows(shape).value[1] == inDim)
            && (r.Some? ==> r.value == [AsRows(shape).value[0],
                  if !useLast then bottleneckDim
                  else if keep.None? then last.outFeatures
                  else SliceStop(keep.value, last.outFeatures)])
  {
    if AsRows(shape).Some? {
      MlpChains(inDim, useBn, ClampLayers(nlayers), hiddenDim, bottleneckDim, AsRows(shape).value[1]);
    }
  }

  /** `DINOHead`: built once, never changed. */
  class DinoHead<W> {
    const mlp: seq<Layer>
    const lastLayer: WeightNorm<W>

    /** `DINOHead.__init__` (lines 60-81); the random initial direction of
        the last layer is given. */
    constructor (inDim: nat, outDim: nat, useBn: bool, normLastLayer: bool, nlayers: int,
                 hiddenDim: nat, bottleneckDim: nat, initDirection: W)
      ensures mlp == MlpLayers(inDim, useBn, ClampLayers(nlayers), hiddenDim, bottleneckDim)
      ensures lastLayer == NewLastLayer(bottleneckDim, outDim, normLastLayer, initDirection)
    {
      var layers := BuildMlp(inDim, useBn, nlayers, hiddenDim, bottleneckDim);
      mlp := layers;
      lastLayer := NewLastLayer(bottleneckDim, outDim, normLastLayer, initDirection);
    }

    /** `DINOHead.forward` (lines 89-97) on shapes. */
    function Forward(shape: seq<nat>, useLast: bool): (r: Option<seq<nat>>)
      ensures r.Some? ==> AsRows(shape).Some? && |r.value| == 2 && r.value[0] == AsRows(shape).value[0]
      ensures r.Some? && useLast ==> r.value[1] == lastLayer.outFeatures
    {
      ForwardShape(mlp, lastLayer, None, shape, useLast)
    }
  }

  /** `MLPHead`: a head whose class count can change after construction. */
  class MlpHead<W> {
    const mlp: seq<Layer>
    const bottleneckDim: nat
    const normLastLayer: bool
    var lastLayer: WeightNorm<W>
    var numClasses: int

    /** The last layer keeps its input width and the flag the constructor
        gave its scale. */
    ghost predicate Valid()
      reads this
    {
      lastLayer.inFeatures == bottleneckDim && lastLayer.scaleTrainable == !normLastLayer
      && |lastLayer.scale| == lastLayer.outFeatures
    }

    /** `MLPHead.__init__` (lines 101-128). */
    constructor (inDim: nat, outDim: nat, useBn: bool, normLastLayer: bool, nlayers: int,
                 hiddenDim: nat, bottleneckDim: nat, initDirection: W)
      ensures Valid()
      ensures mlp == MlpLayers(inDim, useBn, ClampLayers(nlayers), hiddenDim, bottleneckDim)
      ensures this.bottleneckDim == bottleneckDim && this.normLastLayer == normLastLayer
      ensures lastLayer == NewLastLayer(bottleneckDim, outDim, normLastLayer, initDirection)
      ensures numClasses == outDim
    {
      var layers := BuildMlp(inDim, useBn, nlayers, hiddenDim, bottleneckDim);
      mlp := layers;
      this.bottleneckDim := bottleneckDim;
      this.normLastLayer := normLastLayer;
      lastLayer := NewLastLayer(bottleneckDim, outDim, normLastLayer, initDirection);
      numClasses := outDim;
    }

    /** `set_num_classes` (lines 136-145): the count changes, the last
        layer keeps its size, its scale goes back to ones only when it is
        trainable, and its direction is drawn again. */
    method SetNumClasses(n: int, initDirection: W)
      requires Valid()
      modifies this
      ensures Valid()
      ensures numClasses == n
      ensures lastLayer.inFeatures == old(lastLayer.inFeatures) && lastLayer.outFeatures == old(lastLayer.outFeatures)
      ensures lastLayer.scale == if normLastLayer then old(lastLayer.scale) else Ones(lastLayer.outFeatures)
      ensures lastLayer.scaleTrainable == old(lastLayer.scaleTrainable)
      ensures lastLayer.direction == initDirection
    {
      numClasses := n;
      if !normLastLayer {
        lastLayer := lastLayer.(scale := Ones(lastLayer.outFeatures));
      }
      lastLayer := lastLayer.(direction := initDirection);
    }

    /** `MLPHead.forward` (lines 147-155) on shapes. */
    function Forward(shape: seq<nat>, useLast: bool): (r: Option<seq<nat>>)
      reads this
      ensures r.Some? ==> AsRows(shape).Some? && |r.value| == 2 && r.value[0] == AsRows(shape).value[0]
      ensures r.Some? && useLast ==> r.value[1] <= lastLayer.outFeatures
      ensures r.Some? && useLast && 0 <= numClasses ==> r.value[1] <= numClasses
    {
      ForwardShape(mlp, lastLayer, Some(numClasses), shape, useLast)
    }
  }
}
