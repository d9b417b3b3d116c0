/** The segmentation network of src/biom3d/models/unet3d_vgg_deep.py
    (lines 59-163): an encoder and a decoder, the loading of pretrained
    weights from an encoder checkpoint and from a whole-model checkpoint,
    freezing the encoder, and the forward pass. The encoder and decoder
    are modules whose named state is tracked; what their layers compute
    is a parameter of the forward pass. */
module UNet3d {
  import opened Common
  import opened KeyRewrite
  import opened StateDict

  /** A checkpoint file once read: named sections, each a state dict. */
  type Checkpoint<T> = Dict<Dict<Tensor<T>>>

  /** The head weight a whole-model checkpoint may carry and the network
      has no slot for (line 155). */
  const LastLayerKey := "encoder.last_layer.weight"

  /** The state dict the encoder is restored from (lines 97-111): the
      `'model'` section under three rewrite passes, failing that the
      `'teacher'` section under two, failing that nothing. */
  function EncoderStateDict<T>(ckpt: Checkpoint<T>): (r: Option<Dict<Tensor<T>>>)
    ensures r.None? <==> "model" !in Keys(ckpt) && "teacher" !in Keys(ckpt)
    ensures "model" in Keys(ckpt) ==> r == Some(RekeyAll(Get(ckpt, "model").value, ModelRules))
    ensures ("model" !in Keys(ckpt) && "teacher" in Keys(ckpt))
              ==> r == Some(RekeyAll(Get(ckpt, "teacher").value, TeacherRules))
  {
    match Get(ckpt, "model")
    case Some(sd) => Some(RekeyAll(sd, ModelRules))
    case None =>
      match Get(ckpt, "teacher")
      case Some(sd) => Some(RekeyAll(sd, TeacherRules))
      case None => None
  }

  /** The state dict a whole-model checkpoint restores (lines 155-157): its
      `'model'` section without the head weight. */
  function ModelStateDict<T>(ckpt: Checkpoint<T>): (r: Option<Dict<Tensor<T>>>)
    ensures r.Some? <==> "model" in Keys(ckpt)
    ensures r.Some? ==> LastLayerKey !in Keys(r.value)
    ensures r.Some? ==> forall k :: k != LastLayerKey ==> Get(r.value, k) == Get(Get(ckpt, "model").value, k)
  {
    match Get(ckpt, "model")
    case Some(sd) => Some(Delete(sd, LastLayerKey))
    case None => None
  }

  /** What loading an encoder checkpoint came to: the report of
      `load_state_dict`, or the wrong-key warning. */
  datatype EncoderLoad = EncoderLoaded(result: LoadResult) | WrongKey

  /** What loading a whole-model checkpoint came to: the report of
      `load_state_dict`, or the `KeyError` of a checkpoint without a
      `'model'` section. */
  datatype ModelLoad = ModelLoaded(result: LoadResult) | NoModelSection

  /** A load that ended in an exception, which stops the constructor. */
  predicate EncoderRaised(outcome: EncoderLoad)
  {
    outcome.EncoderLoaded? && outcome.result.SizeMismatch?
  }

  /** The encoder's entries after an optional encoder checkpoint. */
  function AfterEncoderCheckpoint<T>(ps: seq<Param<T>>, ckpt: Option<Checkpoint<T>>): seq<Param<T>>
  {
    match ckpt
    case None => ps
    case Some(c) =>
      match EncoderStateDict(c)
      case None => ps
      case Some(sd) => RestoreAll(ps, sd, "")
  }

  /** What restoring the encoder entries `ps` from an encoder checkpoint
      reports (lines 97-112). */
  function EncoderOutcome<T>(ps: seq<Param<T>>, ckpt: Checkpoint<T>): (r: EncoderLoad)
    ensures r.WrongKey? <==> EncoderStateDict(ckpt).None?
  {
    match EncoderStateDict(ckpt)
    case None => WrongKey
    case Some(sd) =>
      EncoderLoaded(Report(MissingKeys(ps, sd, ""), UnexpectedKeys(sd, Expected(ps, "")), MismatchedKeys(ps, sd, "")))
  }

  /** What restoring a network of encoder entries `enc` and decoder entries
      `dec` from a whole-model checkpoint reports (lines 155-157). */
  function ModelOutcome<T>(enc: seq<Param<T>>, dec: seq<Param<T>>, ckpt: Checkpoint<T>): (r: ModelLoad)
    ensures r.NoModelSection? <==> "model" !in Keys(ckpt)
  {
    match ModelStateDict(ckpt)
    case None => NoModelSection
    case Some(sd) =>
      ModelLoaded(Report(MissingKeys(enc, sd, "encoder.") + MissingKeys(dec, sd, "decoder."),
                         UnexpectedKeys(sd, Expected(enc, "encoder.") + Expected(dec, "decoder.")),
                         MismatchedKeys(enc, sd, "encoder.") + MismatchedKeys(dec, sd, "decoder.")))
  }

  /** The forward pass (lines 159-163) on the modules' tensors: the
      decoder applied to what the encoder makes of the image. */
  function ForwardWith<T, X, H, Y>(encoderWeights: seq<Tensor<T>>, decoderWeights: seq<Tensor<T>>,
                                   encode: (seq<Tensor<T>>, X) -> H,
                                   decode: (seq<Tensor<T>>, H) -> Y, x: X): Y
  {
    decode(decoderWeights, encode(encoderWeights, x))
  }

  class UNet<T> {
    const encoder: Module<T>
    const decoder: Module<T>

    /** The encoder and the decoder are two distinct modules. */
    ghost predicate Valid()
      reads this
    {
      encoder != decoder
    }

    /** Building the two modules (lines 72-89); their layers' initial
        state is given. */
    constructor (encoderParams: seq<Param<T>>, decoderParams: seq<Param<T>>)
      ensures Valid() && fresh(encoder) && fresh(decoder)
      ensures encoder.params == encoderParams && decoder.params == decoderParams
    {
      encoder := new Module(encoderParams);
      decoder := new Module(decoderParams);
    }

    /** The names the network's own state dict holds: the encoder's under
        `encoder.`, then the decoder's under `decoder.`. */
    function StateKeys(): seq<string>
      reads this, encoder, decoder
    {
      Expected(encoder.params, "encoder.") + Expected(decoder.params, "decoder.")
    }

    /** Restoring the encoder from a pretraining checkpoint (lines 97-112). */
    method LoadEncoderCheckpoint(ckpt: Checkpoint<T>) returns (outcome: EncoderLoad)
      modifies encoder
      ensures encoder.params == AfterEncoderCheckpoint(old(encoder.params), Some(ckpt))
      ensures outcome == EncoderOutcome(old(encoder.params), ckpt)
    {
      var sd := EncoderStateDict(ckpt);
      if sd.None? {
        return WrongKey;
      }
      var result := encoder.LoadStateDict(sd.value);
      outcome := EncoderLoaded(result);
    }

    /** Restoring the whole network from a checkpoint (lines 139-157): the
        head weight is dropped from the `'model'` section, then each module
        takes the entries under its own prefix. */
    method Load(ckpt: Checkpoint<T>) returns (outcome: ModelLoad)
      requires Valid()
      modifies encoder, decoder
      ensures outcome == ModelOutcome(old(encoder.params), old(decoder.params), ckpt)
      ensures ModelStateDict(ckpt).None? ==>
                encoder.params == old(encoder.params) && decoder.params == old(decoder.params)
      ensures ModelStateDict(ckpt).Some? ==>
                var sd := ModelStateDict(ckpt).value;
                encoder.params == RestoreAll(old(encoder.params), sd, "encoder.")
                && decoder.params == RestoreAll(old(decoder.params), sd, "decoder.")
    {
      var section := ModelStateDict(ckpt);
      if section.None? {
        return NoModelSection;
      }
      var sd := section.value;
      var expected := StateKeys();
      var encoderMissing, encoderMismatched := encoder.RestoreFrom(sd, "encoder.");
      var decoderMissing, decoderMismatched := decoder.RestoreFrom(sd, "decoder.");
      outcome := ModelLoaded(Report(encoderMissing + decoderMissing, UnexpectedKeys(sd, expected),
                                    encoderMismatched + decoderMismatched));
    }

    /** The checkpoint part of the constructor (lines 91-115): the encoder
        checkpoint first, then, unless that raised, the model checkpoint. */
    method LoadPretrained(encoderCkpt: Option<Checkpoint<T>>, modelCkpt: Option<Checkpoint<T>>)
      returns (encoderOutcome: Option<EncoderLoad>, modelOutcome: Option<ModelLoad>)
      requires Valid()
      modifies encoder, decoder
      ensures encoderOutcome
                == if encoderCkpt.Some? then Some(EncoderOutcome(old(encoder.params), encoderCkpt.value)) else None
      ensures modelOutcome
                == if modelCkpt.Some? && !(encoderOutcome.Some? && EncoderRaised(encoderOutcome.value))
                   then Some(ModelOutcome(AfterEncoderCheckpoint(old(encoder.params), encoderCkpt),
                                          old(decoder.params), modelCkpt.value))
                   else None
      ensures (modelOutcome.None? || modelOutcome.value.NoModelSection?) ==>
                encoder.params == AfterEncoderCheckpoint(old(encoder.params), encoderCkpt)
                && decoder.params == old(decoder.params)
      ensures modelOutcome.Some? && modelOutcome.value.ModelLoaded? ==>
                var sd := ModelStateDict(modelCkpt.value).value;
                encoder.params == RestoreAll(AfterEncoderCheckpoint(old(encoder.params), encoderCkpt), sd, "encoder.")
                && decoder.params == RestoreAll(old(decoder.params), sd, "decoder.")
    {
      encoderOutcome, modelOutcome := None, None;
      if encoderCkpt.Some? {
        var e := LoadEncoderCheckpoint(encoderCkpt.value);
        encoderOutcome := Some(e);
        if EncoderRaised(e) {
          return;
        }
      }
      if modelCkpt.Some? {
        var m := Load(modelCkpt.value);
        modelOutcome := Some(m);
      }
    }

    /** `freeze_encoder` (lines 117-131): every encoder parameter takes
        gradients exactly when `freeze` is false. */
    method FreezeEncoder(freeze: bool)
      requires Valid()
      modifies encoder
      ensures encoder.params == WithGrad(old(encoder.params), !freeze)
      ensures decoder.params == old(decoder.params)
    {
      ghost var ps := encoder.params;
      var i := 0;
      while i < |encoder.params|
        invariant 0 <= i <= |encoder.params| == |ps|
        invariant forall j :: 0 <= j < i ==> encoder.params[j] == WithGrad(ps, !freeze)[j]
        invariant forall j :: i <= j < |ps| ==> encoder.params[j] == ps[j]
      {
        if encoder.params[i].kind == Parameter {
          encoder.params := encoder.params[i := encoder.params[i].(requiresGrad := !freeze)];
        }
        i := i + 1;
      }
    }

    /** `unfreeze_encoder` (lines 133-137). */
    method UnfreezeEncoder()
      requires Valid()
      modifies encoder
      ensures encoder.params == WithGrad(old(encoder.params), true)
      ensures decoder.params == old(decoder.params)
    {
      FreezeEncoder(false);
    }

    /** `forward` (lines 159-163), the layers' computations given: the
        gradient flags of the encoder play no part in it. */
    function Forward<X, H, Y>(encode: (seq<Tensor<T>>, X) -> H, decode: (seq<Tensor<T>>, H) -> Y, x: X): (r: Y)
      reads this, encoder, decoder
      ensures forall flag: bool ::
                r == ForwardWith(Weights(WithGrad(encoder.params, flag)), Weights(decoder.params), encode, decode, x)
    {
      WithGradKeepsState(encoder.params, true);
      WithGradKeepsState(encoder.params, false);
      ForwardWith(Weights(encoder.params), Weights(decoder.params), encode, decode, x)
    }
  }

  /** Freezing or unfreezing leaves the forward pass as it was: only
      gradient flags change. */
  lemma {:induction false} FreezeKeepsForward<T, X, H, Y>(encoderParams: seq<Param<T>>, decoderParams: seq<Param<T>>, freeze: bool,
                                       encode: (seq<Tensor<T>>, X) -> H,
                                       decode: (seq<Tensor<T>>, H) -> Y, x: X)
    ensures ForwardWith(Weights(WithGrad(encoderParams, !freeze)), Weights(decoderParams), encode, decode, x)
         == ForwardWith(Weights(encoderParams), Weights(decoderParams), encode, decode, x)
  {
    WithGradKeepsState(encoderParams, !freeze);
  }

  /** The model checkpoint overrides the encoder checkpoint: every encoder
      entry the model checkpoint holds with a fitting shape ends with the
      model checkpoint's tensor, whatever the encoder checkpoint held. */
  lemma {:induction false} ModelCheckpointOverrides<T>(ps: seq<Param<T>>, encoderCkpt: Option<Checkpoint<T>>,
                                    sd: Dict<Tensor<T>>, i: nat, t: Tensor<T>)
    requires i < |ps|
    requires Get(sd, "encoder." + ps[i].name) == Some(t) && t.shape == ps[i].value.shape
    ensures RestoreAll(AfterEncoderCheckpoint(ps, encoderCkpt), sd, "encoder.")[i].value == t
  {
    var mid := AfterEncoderCheckpoint(ps, encoderCkpt);
    match encoderCkpt
    case None =>
    case Some(c) =>
      match EncoderStateDict(c)
      case None =>
      case Some(first) =>
        LaterRestoreWins(ps[i], first, "", sd, "encoder.", t);
  }

  /** The head weight of a whole-model checkpoint never reaches the
      network: an encoder entry named `last_layer.weight` keeps its value
      and is reported missing. */
  lemma {:induction false} LastLayerNeverLoaded<T>(ps: seq<Param<T>>, ckpt: Checkpoint<T>, i: nat)
    requires i < |ps| && "encoder." + ps[i].name == LastLayerKey
    requires ModelStateDict(ckpt).Some?
    ensures RestoreAll(ps, ModelStateDict(ckpt).value, "encoder.")[i] == ps[i]
    ensures LastLayerKey in MissingKeys(ps, ModelStateDict(ckpt).value, "encoder.")
  {
    var sd := ModelStateDict(ckpt).value;
    assert Get(sd, LastLayerKey).None?;
    assert Expected(ps, "encoder.")[i] == LastLayerKey;
    MissingKeysSpec(ps, sd, "encoder.", LastLayerKey);
  }

  /** A checkpoint saved from the bare encoder, whose names carry no
      wrapper marker, is restored under its own names in either
      convention, values and order unchanged. */
  lemma {:induction false} PlainCheckpointKeepsNames<V>(d: Dict<V>)
    requires Unique(d)
    requires forall k :: k in Keys(d) ==> Plain(k)
    ensures RekeyAll(d, ModelRules) == d
    ensures RekeyAll(d, TeacherRules) == d
  {
    forall k | k in Keys(d) ensures ApplyRules(k, ModelRules) == k && ApplyRules(k, TeacherRules) == k {
      PlainNamesUnchanged(k);
    }
    RekeyAllFixes(d, ModelRules);
    RekeyAllFixes(d, TeacherRules);
  }

  /** A one-entry checkpoint from a multi-GPU pretraining run, under either
      section (lines 99-103 and 107-109): its name loses the wrappers. */
  lemma {:induction false} SingleEntryConventions<T>(name: string, t: Tensor<T>)
    requires name == "layers.conv1.weight"
    ensures RekeyAll([("module.0." + name, t)], ModelRules) == [(name, t)]
    ensures RekeyAll([("module.backbone." + name, t)], TeacherRules) == [(name, t)]
  {
    ConventionExamples(name);
    RekeyAllWithoutCollision([("module.0." + name, t)], ModelRules);
    RekeyAllWithoutCollision([("module.backbone." + name, t)], TeacherRules);
  }
}
