# biom3d network core, modelled in Dafny

This project models two files of biom3d's `models` package:

- **`src/biom3d/models/unet3d_vgg_deep.py`**, the 3D U-Net:
  - building the encoder and the decoder;
  - restoring the encoder from a pretraining checkpoint, which rewrites the parameter names (`str.replace` passes over an ordered dict) before a non-strict `load_state_dict`;
  - restoring the whole network from a model checkpoint, with the head weight `encoder.last_layer.weight` dropped first;
  - freezing and unfreezing the encoder;
  - the forward pass as decoder after encoder.
- **`src/biom3d/models/head.py`**, the projection heads and the multi-crop wrapper:
  - the layer list that `DINOHead` and `MLPHead` build;
  - their weight-normalised last layer;
  - `MLPHead.set_num_classes`;
  - the shape a head's forward pass gives;
  - `MultiCropWrapper.forward`, which groups crops by trailing size, runs the backbone once per group and feeds everything to the head in crop order.

The model has six files:

- `common.dfy`: the `Option` type.
- `key_rewrite.dfy`: Python's `str.replace`, including an empty pattern, and the two rewrite conventions (`'model'` and `'teacher'`).
- `state_dict.dfy`:
  - PyTorch state dicts, as insertion-ordered sequences of `(name, value)` pairs;
  - dict assignment, deletion and comprehension;
  - the non-strict restore with its missing, unexpected and mis-shaped keys;
  - a `Module` class whose entries the restoring loop updates in place.
- `unet.dfy`: the `UNet` class, with its two modules as fields and its loading, freezing and forward methods.
- `head.dfy`: the layer lists, the `DinoHead` and `MlpHead` classes, and the forward shape.
- `multicrop.dfy`: the grouping of crops into batches and the batching loop.

The following are parameters of the model:

- the backbone;
- the head called by the wrapper;
- the encoder and decoder computations;
- the random initial direction of the last layer.

The file system, the device and printing are left out.

## Model

| member | source | states |
|---|---|---|
| KeyRewrite.ReplaceAll | src/biom3d/models/unet3d_vgg_deep.py:99-109 | `k.replace(p, r)`: occurrences are replaced left to right without overlap; replacing a non-empty pattern by itself changes nothing |
| KeyRewrite.ReplaceAllAbsent | src/biom3d/models/unet3d_vgg_deep.py:99 | `k.replace(p, r)` leaves a name with no occurrence of a non-empty `p` unchanged |
| KeyRewrite.ReplaceAllLeading | src/biom3d/models/unet3d_vgg_deep.py:99 | a leading occurrence is replaced and the scan resumes right after it (non-overlapping, left to right) |
| KeyRewrite.ReplaceAllStep | src/biom3d/models/unet3d_vgg_deep.py:99 | a character that cannot start the pattern is copied and the scan moves on by one |
| KeyRewrite.ReplaceAllSkip | src/biom3d/models/unet3d_vgg_deep.py:99 | a prefix without the pattern's first character is copied unchanged |
| KeyRewrite.ReplaceAllShrinks | src/biom3d/models/unet3d_vgg_deep.py:99-103 | with a replacement shorter than the pattern (all three passes), a name never grows, and it strictly shrinks when the pattern occurs in it |
| KeyRewrite.ReplaceAllFixedPoint | src/biom3d/models/unet3d_vgg_deep.py:99-103 | for those passes a name is unchanged if and only if it holds no occurrence |
| KeyRewrite.PlainNamesUnchanged | src/biom3d/models/unet3d_vgg_deep.py:97-109 | a name holding none of `module.`, `0.layers`, `backbone.` is unchanged by both conventions |
| KeyRewrite.StripLeading | src/biom3d/models/unet3d_vgg_deep.py:99 | a leading `module.` in front of a wrapper name is removed, and nothing after it changes |
| KeyRewrite.StripOnly | src/biom3d/models/unet3d_vgg_deep.py:103 | a leading pattern followed by a name without it: only that leading pattern is replaced |
| KeyRewrite.ApplyThreeRules | src/biom3d/models/unet3d_vgg_deep.py:99-103 | the three passes of the `'model'` convention run in order, each on the previous result |
| KeyRewrite.ApplyTwoRules | src/biom3d/models/unet3d_vgg_deep.py:107-109 | the two passes of the `'teacher'` convention run in order |
| KeyRewrite.StripSequentialIndex | src/biom3d/models/unet3d_vgg_deep.py:101 | the sequential wrapper's `0.` in front of `layers…` is dropped |
| KeyRewrite.ModelConventionStripsWrappers | src/biom3d/models/unet3d_vgg_deep.py:97-103 | under `'model'`, `module.0.layers…` comes back as the encoder's own `layers…` name |
| KeyRewrite.TeacherConventionStripsWrappers | src/biom3d/models/unet3d_vgg_deep.py:105-109 | under `'teacher'`, `module.backbone.<name>` comes back as `<name>` |
| KeyRewrite.ConventionExamples | src/biom3d/models/unet3d_vgg_deep.py:97-109 | `module.0.layers.conv1.weight` (model) and `module.backbone.layers.conv1.weight` (teacher) both become `layers.conv1.weight` |
| KeyRewrite.StripInnerSequentialIndex | src/biom3d/models/unet3d_vgg_deep.py:101 | an inner `0.layers` is rewritten too, when nothing before it can start the pattern |
| KeyRewrite.RewriteIsNotAnchored | src/biom3d/models/unet3d_vgg_deep.py:99-103 | the rewrite is not anchored: `layers.10.layers.weight` becomes `layers.1layers.weight` under `'model'` |
| StateDict.Get | src/biom3d/models/unet3d_vgg_deep.py:97 | a lookup finds a value exactly when the name is among the dict's keys |
| StateDict.Store | src/biom3d/models/unet3d_vgg_deep.py:99 | `d[k] = v` adds at most one entry and never removes one |
| StateDict.StoreKeys | src/biom3d/models/unet3d_vgg_deep.py:99 | after `d[k] = v` the keys are those of `d`, with `k` appended only when it is new |
| StateDict.StoreGet | src/biom3d/models/unet3d_vgg_deep.py:99 | after `d[k] = v`, `k` holds `v` and every other name keeps its value |
| StateDict.StoreUnique | src/biom3d/models/unet3d_vgg_deep.py:99 | assignment keeps the keys distinct |
| StateDict.StoreNewKey | src/biom3d/models/unet3d_vgg_deep.py:99 | assigning a new key appends the entry at the end |
| StateDict.Delete | src/biom3d/models/unet3d_vgg_deep.py:155-156 | `del d[k]` removes exactly `k`; every other name keeps its value; when `k` is absent the dict is unchanged |
| StateDict.Rekey | src/biom3d/models/unet3d_vgg_deep.py:99 | a renaming comprehension never adds entries (renamed keys may merge) and keeps a non-empty dict non-empty |
| StateDict.RekeyLastWins | src/biom3d/models/unet3d_vgg_deep.py:99 | in a renaming comprehension, a name holds the value of the last entry renamed to it |
| StateDict.RekeyKeysFromSource | src/biom3d/models/unet3d_vgg_deep.py:99 | every key of a renamed dict is the renaming of some original key |
| StateDict.RekeyUnique | src/biom3d/models/unet3d_vgg_deep.py:99 | a renamed dict has distinct keys |
| StateDict.RekeyIdentity | src/biom3d/models/unet3d_vgg_deep.py:99 | a pass that changes no name gives back the dict, order included |
| StateDict.RekeyAll | src/biom3d/models/unet3d_vgg_deep.py:99-109 | the passes of a convention, one after the other, never add entries and keep a non-empty section non-empty |
| StateDict.RekeyWithoutCollision | src/biom3d/models/unet3d_vgg_deep.py:99 | without collisions, a pass renames every entry in place and keeps every value |
| StateDict.RekeyAllWithoutCollision | src/biom3d/models/unet3d_vgg_deep.py:99-103 | without collisions between final names, the passes in sequence rename every entry in place by the composed renaming |
| StateDict.RekeyAllFixes | src/biom3d/models/unet3d_vgg_deep.py:99-109 | a convention that fixes every key of a dict with distinct keys leaves the dict unchanged |
| StateDict.WithGrad | src/biom3d/models/unet3d_vgg_deep.py:130-131 | `l.requires_grad = flag` for every parameter: the same entries in the same order, only the flag of a parameter changes |
| StateDict.WithGradKeepsState | src/biom3d/models/unet3d_vgg_deep.py:130-131 | setting the flags gives every parameter the flag and keeps names and tensors |
| StateDict.WithGradLastWins | src/biom3d/models/unet3d_vgg_deep.py:126-137 | of two successive freeze or unfreeze calls, the last one decides |
| StateDict.WithGradNoop | src/biom3d/models/unet3d_vgg_deep.py:130-131 | setting the flag the parameters already have changes nothing |
| StateDict.Restored | src/biom3d/models/unet3d_vgg_deep.py:104 | an entry takes the state dict's tensor exactly when its name is there with the same shape; name, kind, flag and shape never change |
| StateDict.RestoreAll | src/biom3d/models/unet3d_vgg_deep.py:104 | restoring a module restores each entry on its own, in order |
| StateDict.MissingKeys | src/biom3d/models/unet3d_vgg_deep.py:104 | the missing names in entry order; against an empty state dict every entry is missing |
| StateDict.MismatchedKeys | src/biom3d/models/unet3d_vgg_deep.py:104 | the mis-shaped names in entry order; against an empty state dict there are none |
| StateDict.MissingKeysSpec | src/biom3d/models/unet3d_vgg_deep.py:104 | a name is reported missing if and only if the module expects it and the state dict lacks it |
| StateDict.MismatchedKeysSpec | src/biom3d/models/unet3d_vgg_deep.py:104 | a name is reported mis-shaped if and only if an entry expects it and the state dict's tensor has another shape |
| StateDict.UnexpectedKeys | src/biom3d/models/unet3d_vgg_deep.py:104 | a name is reported unexpected if and only if it is in the state dict and no entry expects it |
| StateDict.RestoreIdempotent | src/biom3d/models/unet3d_vgg_deep.py:104 | loading the same state dict twice is loading it once |
| StateDict.LaterRestoreWins | src/biom3d/models/unet3d_vgg_deep.py:104-115 | of two loads, the later one decides every entry it matches |
| StateDict.Module.constructor | src/biom3d/models/unet3d_vgg_deep.py:72-89 | a module starts with the entries it is given |
| StateDict.Module.RestoreFrom | src/biom3d/models/unet3d_vgg_deep.py:104 | the in-place copying loop leaves exactly the restored entries and returns exactly the missing and mis-shaped names |
| StateDict.Module.LoadStateDict | src/biom3d/models/unet3d_vgg_deep.py:104 | `load_state_dict(sd, strict=False)` on a module: restored entries, plus the report or the size-mismatch error |
| UNet3d.EncoderStateDict | src/biom3d/models/unet3d_vgg_deep.py:97-111 | `'model'` is preferred under three passes, then `'teacher'` under two; neither section gives nothing |
| UNet3d.ModelStateDict | src/biom3d/models/unet3d_vgg_deep.py:155-157 | present exactly when there is a `'model'` section; never holds the head weight; every other name keeps its value |
| UNet3d.EncoderOutcome | src/biom3d/models/unet3d_vgg_deep.py:97-112 | the report of an encoder restore is the wrong-key warning exactly when the checkpoint has neither section |
| UNet3d.ModelOutcome | src/biom3d/models/unet3d_vgg_deep.py:139-157 | the report of a model restore is the `KeyError` exactly when the checkpoint has no `'model'` section |
| UNet3d.UNet.constructor | src/biom3d/models/unet3d_vgg_deep.py:72-89 | two fresh, distinct modules with the given entries |
| UNet3d.UNet.LoadEncoderCheckpoint | src/biom3d/models/unet3d_vgg_deep.py:97-112 | restores the encoder from the chosen and rewritten section and returns exactly `EncoderOutcome` of the old entries; with neither section it warns and changes nothing |
| UNet3d.UNet.Load | src/biom3d/models/unet3d_vgg_deep.py:139-157 | returns exactly `ModelOutcome` of the old entries. Without `'model'`: `KeyError` and no change. Otherwise each module is restored under its prefix, and the report lists the missing names of both modules, the unexpected names against the network's own keys, and the mis-shaped names |
| UNet3d.UNet.LoadPretrained | src/biom3d/models/unet3d_vgg_deep.py:91-115 | the encoder checkpoint comes first and reports `EncoderOutcome`; a raised load stops before the model checkpoint; otherwise the model checkpoint reports `ModelOutcome` on the entries the encoder checkpoint left, and is applied on top of them, or changes nothing without `'model'` |
| UNet3d.UNet.FreezeEncoder | src/biom3d/models/unet3d_vgg_deep.py:117-131 | every encoder parameter takes gradients exactly when `freeze` is false; buffers and the decoder are untouched |
| UNet3d.UNet.UnfreezeEncoder | src/biom3d/models/unet3d_vgg_deep.py:133-137 | every encoder parameter takes gradients; the decoder is untouched |
| UNet3d.ForwardWith | src/biom3d/models/unet3d_vgg_deep.py:159-163 | the decoder, with its own tensors, applied to what the encoder, with its own tensors, gives for `x`: no other state enters the forward pass |
| UNet3d.UNet.Forward | src/biom3d/models/unet3d_vgg_deep.py:159-163 | `decoder(encoder(x))` on the modules' tensors; the encoder's gradient flags play no part |
| UNet3d.FreezeKeepsForward | src/biom3d/models/unet3d_vgg_deep.py:117-163 | freezing or unfreezing does not change the forward pass (decoder after encoder) |
| UNet3d.ModelCheckpointOverrides | src/biom3d/models/unet3d_vgg_deep.py:91-115 | an encoder entry the model checkpoint holds with a fitting shape ends with that tensor, whatever the encoder checkpoint held |
| UNet3d.LastLayerNeverLoaded | src/biom3d/models/unet3d_vgg_deep.py:155-157 | an entry named `encoder.last_layer.weight` keeps its value and is reported missing |
| UNet3d.PlainCheckpointKeepsNames | src/biom3d/models/unet3d_vgg_deep.py:97-109 | a checkpoint of the bare encoder is restored under its own names, in order, in either convention |
| UNet3d.SingleEntryConventions | src/biom3d/models/unet3d_vgg_deep.py:99-109 | a one-entry multi-GPU checkpoint loses its wrappers in both sections |
| Head.ClampLayers | src/biom3d/models/head.py:62 | `max(nlayers, 1)`: at least 1 and at least `nlayers`, and one of the two |
| Head.MlpLayers | src/biom3d/models/head.py:62-76 | the MLP starts with a Linear from `in_dim` and ends with a Linear to `bottleneck_dim`; a single layer joins the two |
| Head.BuildMlp | src/biom3d/models/head.py:62-76 | the appending loop builds exactly the layer list `MlpLayers` |
| Head.CountConcat | src/biom3d/models/head.py:66-76 | layer counts add up over concatenation |
| Head.CountRepeat | src/biom3d/models/head.py:70-74 | `k` loop passes hold `k` times the layers of one pass |
| Head.SingleLayerMlp | src/biom3d/models/head.py:62-64 | with `nlayers <= 1` the MLP is one Linear from `in_dim` to `bottleneck_dim` |
| Head.HiddenBlockCount | src/biom3d/models/head.py:71-74 | one loop pass adds a Linear, a GELU, and a BatchNorm exactly when `use_bn` |
| Head.MlpCountsByKind | src/biom3d/models/head.py:66-76 | an MLP of `n >= 2` layers holds `n - 1` loop-pass layers of each kind, plus the last Linear |
| Head.MlpLayerCounts | src/biom3d/models/head.py:62-76 | `n` Linears and `n - 1` GELUs; `n - 1` BatchNorms with `use_bn`, none otherwise |
| Head.PropagateConcat | src/biom3d/models/head.py:92 | the width after two layer lists in sequence is the second applied to the first's result |
| Head.PropagateHiddenBlock | src/biom3d/models/head.py:71-74 | a loop pass keeps the width `hidden_dim` |
| Head.PropagateRepeat | src/biom3d/models/head.py:70-74 | any number of loop passes keeps the width `hidden_dim` |
| Head.MlpChains | src/biom3d/models/head.py:63-76 | the MLP accepts exactly width `in_dim` and outputs width `bottleneck_dim` |
| Head.Flatten | src/biom3d/models/head.py:90-91 | `x.view(x.size(0), -1)` keeps the batch size and the element count; it raises on 0-d input or batch size 0 |
| Head.AsRows | src/biom3d/models/head.py:90-91 | a head works on a 2-D batch |
| Head.SliceStop | src/biom3d/models/head.py:153 | the width of `[:, :num_classes]`: a non-negative stop clamped to the width, a negative stop counted from the end |
| Head.TakeColumns | src/biom3d/models/head.py:153 | `x[:, :stop]` keeps every row, cut to that width |
| Head.Ones | src/biom3d/models/head.py:79 | `fill_(1)`: every scale entry is 1 |
| Head.ForwardShape | src/biom3d/models/head.py:89-97 | a result needs a batch of rows the MLP accepts; it keeps the number of rows, is the MLP's width without the last layer, and is never wider than the last layer with it |
| Head.HeadForwardShape | src/biom3d/models/head.py:89-97 | the forward pass accepts exactly rows of width `in_dim`. The output has one row per input row and width `bottleneck_dim` (no last layer), `out_dim` (DINOHead) or the `num_classes` cut (MLPHead, line 153) |
| Head.DinoHead.constructor | src/biom3d/models/head.py:60-81 | the MLP is the built layer list; the last layer has scale ones and a frozen scale when `norm_last_layer` |
| Head.MlpHead.constructor | src/biom3d/models/head.py:101-128 | as for DINOHead, and `num_classes` is `out_dim` |
| Head.MlpHead.SetNumClasses | src/biom3d/models/head.py:136-145 | sets the class count and keeps the layer size. The scale goes back to ones only when trainable. The direction is drawn again |
| Head.DinoHead.Forward | src/biom3d/models/head.py:89-97 | one row per input row; with the last layer the full `out_dim` columns |
| Head.MlpHead.Forward | src/biom3d/models/head.py:147-155 | one row per input row; with the last layer at most `out_dim` columns and at most `num_classes` of them |
| MultiCrop.AsList | src/biom3d/models/head.py:178-179 | a non-list input becomes a one-element list |
| MultiCrop.TrailingSizes | src/biom3d/models/head.py:181 | defined exactly when no crop is 0-d; then each crop's last dimension, in order |
| MultiCrop.LeadingRun | src/biom3d/models/head.py:180-183 | the first run of equal sizes is between 1 and the number of crops long |
| MultiCrop.LeadingRunIsMaximal | src/biom3d/models/head.py:180-183 | that run holds equal sizes and is maximal |
| MultiCrop.RunCounts | src/biom3d/models/head.py:180-182 | `unique_consecutive(..., return_counts=True)`: no more runs than crops, and none exactly when there are no crops |
| MultiCrop.CumSum | src/biom3d/models/head.py:180 | one running total per count |
| MultiCrop.GroupEnds | src/biom3d/models/head.py:180-183 | one batch end per run of equal trailing sizes |
| MultiCrop.GroupEndsAreRunEnds | src/biom3d/models/head.py:180-183 | a batch ends at a position if and only if a run of equal trailing sizes closes there |
| MultiCrop.GroupEndsAbove | src/biom3d/models/head.py:180-185 | every end lies within the crops |
| MultiCrop.GroupEndsRise | src/biom3d/models/head.py:180-185 | the ends rise strictly, so no batch is empty |
| MultiCrop.GroupEndsLast | src/biom3d/models/head.py:180-185 | there are ends exactly when there are crops, and the last end is the number of crops |
| MultiCrop.GroupEndsValid | src/biom3d/models/head.py:180-185 | the ends form a valid walk finishing at the last crop |
| MultiCrop.RowsConcat | src/biom3d/models/head.py:186 | `torch.cat` of two crop lists is the concatenation of their rows |
| MultiCrop.Batches | src/biom3d/models/head.py:185-186 | there is one backbone input per batch visited |
| MultiCrop.BatchesCoverRows | src/biom3d/models/head.py:185-193 | the batches visited so far hold the rows of every crop before the current start, in order |
| MultiCrop.BatchesAreAllRows | src/biom3d/models/head.py:180-193 | every crop's rows reach the backbone exactly once, in crop order |
| MultiCrop.Kept | src/biom3d/models/head.py:189-190 | a tensor output is kept; from a tuple its first item is kept; an empty tuple raises |
| MultiCrop.Collected | src/biom3d/models/head.py:185-192 | a result over `k` batches means the `k`-th batch's output had a first item |
| MultiCrop.CollectedStopsAtError | src/biom3d/models/head.py:185-192 | once an output raises, the pass has no result |
| MultiCrop.Ends | src/biom3d/models/head.py:180-183 | the input's batch ends form a valid walk and are non-empty when the input can be batched |
| MultiCrop.RunBatches | src/biom3d/models/head.py:184-193 | the loop calls the backbone on the batches in order. It accumulates exactly the collected features, and on a failing output it stops right after the first failing batch, all before it collected |
| MultiCrop.Forward | src/biom3d/models/head.py:176-195 | an empty list or a 0-d crop raises before any call. Otherwise the backbone is called on the batches in order. The result is the head applied to all collected features, or an error right after the first failing batch |
| MultiCrop.RowWiseBackbone | src/biom3d/models/head.py:185-193 | with a row-wise backbone, the features are the mapped rows of the batches |
| MultiCrop.RowWiseForward | src/biom3d/models/head.py:176-195 | with a row-wise backbone, the head sees every crop's rows, mapped, in crop order, whatever the grouping |
| MultiCrop.TwoResolutions | src/biom3d/models/head.py:180-183 | two global views (96) and three local ones (64) make batches ending at 2 and 5 |
| MultiCrop.SingleTensorOneCall | src/biom3d/models/head.py:178-186 | a single tensor is one batch: the backbone runs once on its rows |

## Left out

- Tensor arithmetic is not modelled:
  - the Linear, BatchNorm and GELU computations;
  - L2 normalisation (it keeps the shape);
  - the weight-norm product `g * v / ||v||`;
  - the encoder and decoder layers.
  The forward passes are modelled on shapes (heads) or as given functions (U-Net, backbone, head of the wrapper).
- `trunc_normal_` and the `_init_weights` initialisation are random. The new direction of the last layer is a parameter, and the initial module entries are given to the constructors.
- `VGGEncoder`, `VGGDecoder` and `EncoderBlock` are other files and are not part of this model. The encoder and decoder are modules with a given list of named entries.
- `torch.load`, the file paths, `.cuda()` and `.cpu()`, `map_location` and `print` are I/O and devices. The checkpoint is given as its ordered sections.
- The `dino`, `vgg_mlp`, `eff_mlp` and `hrnet_mlp` factory functions and the `backbone.fc` / `backbone.head` replacement by `Identity` in `MultiCropWrapper.__init__` are out of scope. The backbone is a parameter.
- BatchNorm's error on a batch of one row in training mode, and `torch.cat`'s check that the non-leading dimensions agree, are not modelled. Crops are joined by their rows.
- StateDict.UnexpectedKeys: PyTorch ignores a state-dict key that names a submodule path exactly. The model compares flat names only and would report such a key.
- StateDict.WithGradKeepsState: what `requires_grad` does to an optimizer is not modelled, only the flag.
- UNet3d.UNet.FreezeEncoder: `parameters()` yields a tensor shared by two names once. The model has one entry per name and so assumes no sharing.
- Head.Flatten: `view` needs a contiguous tensor. Contiguity is not modelled.
- Head.Layer, Head.BuildMlp, Head.DinoHead.constructor, Head.MlpHead.constructor: widths are `nat`. A negative `in_dim`, `hidden_dim`, `bottleneck_dim` or `out_dim` makes `nn.Linear` or `nn.BatchNorm1d` raise (head.py lines 64-75, 78 and 121). The model cannot represent that input, so it does not model that error.
- StateDict.Restored: for a 0-d entry, PyTorch's non-strict load accepts a one-element tensor and copies its only element. The model compares shapes only and reports that case as mis-shaped.
- Checkpoint values that are not tensors (optimizer state, epochs) are not modelled. A section is a dict of tensors, and other sections are not looked at.
- A `KeyError` from `Load` ends the constructor. `LoadPretrained` returns it as the model outcome, and nothing follows it in the model.
