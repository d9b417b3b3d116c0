/** PyTorch state dicts and non-strict restoration, as used by the
    segmentation network's checkpoint loading
    (src/biom3d/models/unet3d_vgg_deep.py, lines 97-110 and 155-157).

    A Python dict keeps its keys in insertion order, and assigning an
    existing key keeps its position; a dict is therefore a sequence of
    (name, value) pairs here, not a `map`. */
module StateDict {
  import opened Common
  import opened KeyRewrite

  /** A tensor: its shape and its contents, which this model never inspects. */
  datatype Tensor<T> = Tensor(shape: seq<nat>, data: T)

  /** A dict from names to values, in insertion order. */
  type Dict<V> = seq<(string, V)>

  function Keys<V>(d: Dict<V>): seq<string>
  {
    seq(|d|, i requires 0 <= i < |d| => d[i].0)
  }

  predicate Unique<V>(d: Dict<V>)
  {
    forall i, j :: 0 <= i < j < |d| ==> d[i].0 != d[j].0
  }

  /** `d.get(k)`. */
  function Get<V>(d: Dict<V>, k: string): (r: Option<V>)
    ensures r.Some? <==> k in Keys(d)
  {
    if d == [] then None
    else if d[0].0 == k then
      assert Keys(d)[0] == k;
      Some(d[0].1)
    else
      assert Keys(d) == [d[0].0] + Keys(d[1..]);
      Get(d[1..], k)
  }

  /** `d[k] = v`: an existing key keeps its place, a new key goes last. */
  function Store<V>(d: Dict<V>, k: string, v: V): (r: Dict<V>)
    ensures |d| <= |r| <= |d| + 1
  {
    if d == [] then [(k, v)]
    else if d[0].0 == k then [(k, v)] + d[1..]
    else [d[0]] + Store(d[1..], k, v)
  }

  lemma {:induction false} KeysCons<V>(p: (string, V), d: Dict<V>)
    ensures Keys([p] + d) == [p.0] + Keys(d)
  {
  }

  /** The names after `d[k] = v`: those of `d`, then `k` if it is new. */
  lemma {:induction false} StoreKeys<V>(d: Dict<V>, k: string, v: V)
    ensures Keys(Store(d, k, v)) == if k in Keys(d) then Keys(d) else Keys(d) + [k]
  {
    if d == [] {
      assert Keys([(k, v)]) == [k];
    } else {
      var rest := d[1..];
      assert d == [d[0]] + rest;
      KeysCons(d[0], rest);
      if d[0].0 == k {
        KeysCons((k, v), rest);
      } else {
        StoreKeys(rest, k, v);
        KeysCons(d[0], Store(rest, k, v));
        if k !in Keys(d) {
          assert [d[0].0] + (Keys(rest) + [k]) == [d[0].0] + Keys(rest) + [k];
        }
      }
    }
  }

  /** After `d[k] = v`, `k` holds `v` and every other name what it held. */
  lemma {:induction false} StoreGet<V>(d: Dict<V>, k: string, v: V, j: string)
    ensures Get(Store(d, k, v), j) == if j == k then Some(v) else Get(d, j)
  {
    if d != [] && d[0].0 != k {
      StoreGet(d[1..], k, v, j);
    }
  }

  /** A store keeps keys distinct. */
  lemma {:induction false} StoreUnique<V>(d: Dict<V>, k: string, v: V)
    requires Unique(d)
    ensures Unique(Store(d, k, v))
  {
    var r := Store(d, k, v);
    StoreKeys(d, k, v);
    forall i, j | 0 <= i < j < |r| ensures r[i].0 != r[j].0 {
      assert Keys(r)[i] == r[i].0 && Keys(r)[j] == r[j].0;
      if k !in Keys(d) && j == |d| {
        assert Keys(d)[i] == r[i].0;
      } else {
        assert Keys(d)[i] == r[i].0 && Keys(d)[j] == r[j].0;
      }
    }
  }

  /** Storing a new key appends it. */
  lemma {:induction false} StoreNewKey<V>(d: Dict<V>, k: string, v: V)
    requires k !in Keys(d)
    ensures Store(d, k, v) == d + [(k, v)]
  {
    if d != [] {
      assert Keys(d)[0] == d[0].0;
      assert Keys(d) == [d[0].0] + Keys(d[1..]);
      StoreNewKey(d[1..], k, v);
      assert d == [d[0]] + d[1..];
    }
  }

  /** `del d[k]`: every other entry stays, in order. */
  function Delete<V>(d: Dict<V>, k: string): (r: Dict<V>)
    ensures forall j :: j in Keys(r) <==> j in Keys(d) && j != k
    ensures forall j :: j != k ==> Get(r, j) == Get(d, j)
    ensures k !in Keys(d) ==> r == d
  {
    if d == [] then []
    else
      var r' := Delete(d[1..], k);
      assert Keys(d) == [d[0].0] + Keys(d[1..]);
      if d[0].0 == k then r'
      else
        assert Keys([d[0]] + r') == [d[0].0] + Keys(r');
        assert k !in Keys(d) ==> [d[0]] + d[1..] == d;
        [d[0]] + r'
  }

  /** A rewrite pass over a dict: `{k.replace(p, r): v for k, v in d.items()}`.
      Entries are visited in order, so when two names rewrite to the same
      name the later entry's value wins. */
  function Rekey<V>(d: Dict<V>, f: string -> string): (r: Dict<V>)
    ensures |r| <= |d|
    ensures d != [] ==> r != []
    decreases |d|
  {
    if d == [] then []
    else
      var n := |d| - 1;
      Store(Rekey(d[..n], f), f(d[n].0), d[n].1)
  }

  /** The value under a rewritten name is that of the last entry whose name
      rewrites to it. */
  lemma {:induction false} RekeyLastWins<V>(d: Dict<V>, f: string -> string, i: nat)
    requires i < |d|
    requires forall j :: i < j < |d| ==> f(d[j].0) != f(d[i].0)
    ensures Get(Rekey(d, f), f(d[i].0)) == Some(d[i].1)
    decreases |d|
  {
    var n := |d| - 1;
    var front := d[..n];
    var k := f(d[i].0);
    if i < n {
      assert front[i] == d[i];
      forall j | i < j < n ensures f(front[j].0) != k {
        assert front[j] == d[j];
      }
      RekeyLastWins(front, f, i);
      assert f(d[n].0) != k;
    }
    StoreGet(Rekey(front, f), f(d[n].0), d[n].1, k);
  }

  /** Every name of a rewritten dict comes from a name of the original. */
  lemma {:induction false} RekeyKeysFromSource<V>(d: Dict<V>, f: string -> string, k: string)
    requires k in Keys(Rekey(d, f))
    ensures exists i :: 0 <= i < |d| && f(d[i].0) == k
    decreases |d|
  {
    var n := |d| - 1;
    StoreKeys(Rekey(d[..n], f), f(d[n].0), d[n].1);
    if k != f(d[n].0) {
      RekeyKeysFromSource(d[..n], f, k);
      var i :| 0 <= i < n && f(d[..n][i].0) == k;
      assert d[..n][i] == d[i];
    }
  }

  /** A rewritten dict has distinct names. */
  lemma {:induction false} RekeyUnique<V>(d: Dict<V>, f: string -> string)
    ensures Unique(Rekey(d, f))
    decreases |d|
  {
    if d != [] {
      var n := |d| - 1;
      RekeyUnique(d[..n], f);
      StoreUnique(Rekey(d[..n], f), f(d[n].0), d[n].1);
    }
  }

  /** A pass that leaves every name as it is leaves the dict as it is,
      order included. */
  lemma {:induction false} RekeyIdentity<V>(d: Dict<V>, f: string -> string)
    requires Unique(d)
    requires forall i :: 0 <= i < |d| ==> f(d[i].0) == d[i].0
    ensures Rekey(d, f) == d
    decreases |d|
  {
    if d != [] {
      var n := |d| - 1;
      var front := d[..n];
      assert front + [d[n]] == d;
      assert forall i :: 0 <= i < n ==> front[i] == d[i];
      RekeyIdentity(front, f);
      assert Rekey(d, f) == Store(front, d[n].0, d[n].1);
      assert d[n].0 !in Keys(front) by {
        forall i | 0 <= i < n ensures Keys(front)[i] != d[n].0 {
          assert Keys(front)[i] == d[i].0;
        }
      }
      StoreNewKey(front, d[n].0, d[n].1);
    }
  }

  /** The passes run one after the other over the whole dict. */
  function RekeyAll<V>(d: Dict<V>, rules: seq<Rule>): (r: Dict<V>)
    ensures |r| <= |d|
    ensures d != [] ==> r != []
    decreases |rules|
  {
    if rules == [] then d else RekeyAll(Rekey(d, Renaming(rules[0])), rules[1..])
  }

  /** Each entry under its rewritten name, in the original order. */
  function Renamed<V>(d: Dict<V>, f: string -> string): Dict<V>
  {
    seq(|d|, i requires 0 <= i < |d| => (f(d[i].0), d[i].1))
  }

  /** No two entries of `d` are rewritten to the same name. */
  ghost predicate NoCollision<V>(d: Dict<V>, f: string -> string)
  {
    forall i, j :: 0 <= i < j < |d| ==> f(d[i].0) != f(d[j].0)
  }

  /** Without collisions a pass renames every entry where it stands and
      keeps every value. */
  lemma {:induction false} RekeyWithoutCollision<V>(d: Dict<V>, f: string -> string)
    requires NoCollision(d, f)
    ensures Rekey(d, f) == Renamed(d, f)
    decreases |d|
  {
    if d != [] {
      var n := |d| - 1;
      var front := d[..n];
      forall i, j | 0 <= i < j < n ensures f(front[i].0) != f(front[j].0) {
        assert front[i] == d[i] && front[j] == d[j];
      }
      RekeyWithoutCollision(front, f);
      var k := f(d[n].0);
      assert Rekey(d, f) == Store(Renamed(front, f), k, d[n].1);
      forall i | 0 <= i < n ensures Keys(Renamed(front, f))[i] != k {
        assert front[i] == d[i];
      }
      StoreNewKey(Renamed(front, f), k, d[n].1);
      forall i | 0 <= i < n ensures Renamed(front, f)[i] == Renamed(d, f)[i] {
        assert front[i] == d[i];
      }
      assert Renamed(front, f) + [(k, d[n].1)] == Renamed(d, f);
    }
  }

  /** Without collisions between the final names, the passes of a
      convention together rename every entry where it stands. */
  lemma {:induction false} RekeyAllWithoutCollision<V>(d: Dict<V>, rules: seq<Rule>)
    requires NoCollision(d, Rewriting(rules))
    ensures RekeyAll(d, rules) == Renamed(d, Rewriting(rules))
    decreases |rules|
  {
    if rules == [] {
      forall i | 0 <= i < |d| ensures Renamed(d, Rewriting(rules))[i] == d[i] {
        assert Rewriting(rules)(d[i].0) == ApplyRules(d[i].0, []) == d[i].0;
      }
    } else {
      var f := Renaming(rules[0]);
      var g := Rewriting(rules[1..]);
      forall i | 0 <= i < |d| ensures g(f(d[i].0)) == Rewriting(rules)(d[i].0) {
      }
      RekeyWithoutCollision(d, f);
      var mid := Renamed(d, f);
      assert NoCollision(mid, g) by {
        forall i, j | 0 <= i < j < |mid| ensures g(mid[i].0) != g(mid[j].0) {
          assert Rewriting(rules)(d[i].0) != Rewriting(rules)(d[j].0);
        }
      }
      RekeyAllWithoutCollision(mid, rules[1..]);
      assert Renamed(mid, g) == Renamed(d, Rewriting(rules));
    }
  }

  /** A convention that leaves every name of a dict with distinct names
      as it is leaves the dict as it is, order included. */
  lemma {:induction false} RekeyAllFixes<V>(d: Dict<V>, rules: seq<Rule>)
    requires Unique(d)
    requires forall k :: k in Keys(d) ==> ApplyRules(k, rules) == k
    ensures RekeyAll(d, rules) == d
  {
    var f := Rewriting(rules);
    forall i | 0 <= i < |d| ensures f(d[i].0) == d[i].0 {
      assert Keys(d)[i] == d[i].0;
    }
    RekeyAllWithoutCollision(d, rules);
    assert Renamed(d, f) == d;
  }

  /** Entry kinds of a module's state: `parameters()` yields the parameters;
      a state dict also holds the persistent buffers. */
  datatype Kind = Parameter | Buffer

  /** One named entry of a module's state, with its gradient flag. */
  datatype Param<T> = Param(name: string, kind: Kind, value: Tensor<T>, requiresGrad: bool)

  /** The names a module expects in a state dict, under a prefix. */
  function Expected<T>(ps: seq<Param<T>>, prefix: string): seq<string>
  {
    seq(|ps|, i requires 0 <= i < |ps| => prefix + ps[i].name)
  }

  /** The tensors a module computes with, in order. */
  function Weights<T>(ps: seq<Param<T>>): seq<Tensor<T>>
  {
    seq(|ps|, i requires 0 <= i < |ps| => ps[i].value)
  }

  /** Every parameter's gradient flag set to `flag`; buffers are not
      parameters and keep theirs. */
  function WithGrad<T>(ps: seq<Param<T>>, flag: bool): (r: seq<Param<T>>)
    ensures |r| == |ps|
    ensures forall i :: 0 <= i < |ps| ==> r[i].(requiresGrad := ps[i].requiresGrad) == ps[i]
  {
    seq(|ps|, i requires 0 <= i < |ps| =>
      if ps[i].kind == Parameter then ps[i].(requiresGrad := flag) else ps[i])
  }

  /** All parameters take gradients exactly when `flag` holds. */
  predicate AllGrad<T>(ps: seq<Param<T>>, flag: bool)
  {
    forall i :: 0 <= i < |ps| && ps[i].kind == Parameter ==> ps[i].requiresGrad == flag
  }

  /** Setting the flags touches nothing but the flags: names, kinds and
      tensors stay, so what the module computes stays. */
  lemma {:induction false} WithGradKeepsState<T>(ps: seq<Param<T>>, flag: bool)
    ensures AllGrad(WithGrad(ps, flag), flag)
    ensures Weights(WithGrad(ps, flag)) == Weights(ps)
    ensures Expected(WithGrad(ps, flag), "") == Expected(ps, "")
  {
    var r := WithGrad(ps, flag);
    assert forall i :: 0 <= i < |ps| ==> r[i].value == ps[i].value && r[i].name == ps[i].name;
  }

  /** Only the last setting counts: freezing then unfreezing is unfreezing. */
  lemma {:induction false} WithGradLastWins<T>(ps: seq<Param<T>>, a: bool, b: bool)
    ensures WithGrad(WithGrad(ps, a), b) == WithGrad(ps, b)
  {
  }

  /** Setting the flag a module's parameters already have changes nothing,
      so unfreezing a fully trainable module, then freezing and unfreezing
      it again, gives back the module. */
  lemma {:induction false} WithGradNoop<T>(ps: seq<Param<T>>, flag: bool)
    requires AllGrad(ps, flag)
    ensures WithGrad(ps, flag) == ps
  {
    var r := WithGrad(ps, flag);
    forall i | 0 <= i < |ps| ensures r[i] == ps[i] {
      if ps[i].kind == Parameter {
        assert ps[i].requiresGrad == flag;
      }
    }
  }

  /** Non-strict restoration of one entry: copied when the state dict has
      its name with the same shape, kept otherwise. */
  function Restored<T>(p: Param<T>, sd: Dict<Tensor<T>>, prefix: string): (q: Param<T>)
    ensures q.name == p.name && q.kind == p.kind && q.requiresGrad == p.requiresGrad
    ensures q.value.shape == p.value.shape
    ensures q.value != p.value ==> Get(sd, prefix + p.name) == Some(q.value)
    ensures (Get(sd, prefix + p.name).Some? && Get(sd, prefix + p.name).value.shape == p.value.shape)
              ==> q.value == Get(sd, prefix + p.name).value
  {
    match Get(sd, prefix + p.name)
    case Some(t) => if t.shape == p.value.shape then p.(value := t) else p
    case None => p
  }

  /** Non-strict restoration of a whole module. */
  function RestoreAll<T>(ps: seq<Param<T>>, sd: Dict<Tensor<T>>, prefix: string): (r: seq<Param<T>>)
    ensures |r| == |ps| && forall i :: 0 <= i < |ps| ==> r[i] == Restored(ps[i], sd, prefix)
    decreases |ps|
  {
    if ps == [] then []
    else
      var n := |ps| - 1;
      assert forall i :: 0 <= i < n ==> ps[..n][i] == ps[i];
      RestoreAll(ps[..n], sd, prefix) + [Restored(ps[n], sd, prefix)]
  }

  /** The expected names the state dict lacks, in module order. */
  function MissingKeys<T>(ps: seq<Param<T>>, sd: Dict<Tensor<T>>, prefix: string): (r: seq<string>)
    ensures sd == [] ==> |r| == |ps|
    decreases |ps|
  {
    if ps == [] then []
    else
      var n := |ps| - 1;
      var key := prefix + ps[n].name;
      MissingKeys(ps[..n], sd, prefix) + (if Get(sd, key).None? then [key] else [])
  }

  /** A name is reported missing exactly when the module expects it and
      the state dict lacks it. */
  lemma {:induction false} MissingKeysSpec<T>(ps: seq<Param<T>>, sd: Dict<Tensor<T>>, prefix: string, k: string)
    ensures k in MissingKeys(ps, sd, prefix) <==> k in Expected(ps, prefix) && k !in Keys(sd)
    decreases |ps|
  {
    if ps != [] {
      var n := |ps| - 1;
      assert Expected(ps, prefix) == Expected(ps[..n], prefix) + [prefix + ps[n].name];
      MissingKeysSpec(ps[..n], sd, prefix, k);
    }
  }

  /** The module entry `p`, looked up under `prefix`, has a tensor of
      another shape in the state dict. */
  predicate Mismatch<T>(p: Param<T>, sd: Dict<Tensor<T>>, prefix: string)
  {
    Get(sd, prefix + p.name).Some? && Get(sd, prefix + p.name).value.shape != p.value.shape
  }

  /** The expected names whose tensor in the state dict has another shape. */
  function MismatchedKeys<T>(ps: seq<Param<T>>, sd: Dict<Tensor<T>>, prefix: string): (r: seq<string>)
    ensures sd == [] ==> r == []
    decreases |ps|
  {
    if ps == [] then []
    else
      var n := |ps| - 1;
      MismatchedKeys(ps[..n], sd, prefix) + (if Mismatch(ps[n], sd, prefix) then [prefix + ps[n].name] else [])
  }

  /** A name is reported mis-shaped exactly when some entry expects it and
      the state dict's tensor under it has another shape. */
  lemma {:induction false} MismatchedKeysSpec<T>(ps: seq<Param<T>>, sd: Dict<Tensor<T>>, prefix: string, k: string)
    ensures k in MismatchedKeys(ps, sd, prefix)
        <==> exists i :: 0 <= i < |ps| && prefix + ps[i].name == k && Mismatch(ps[i], sd, prefix)
    decreases |ps|
  {
    if ps != [] {
      var n := |ps| - 1;
      var front := ps[..n];
      var last := if Mismatch(ps[n], sd, prefix) then [prefix + ps[n].name] else [];
      assert MismatchedKeys(ps, sd, prefix) == MismatchedKeys(front, sd, prefix) + last;
      MismatchedKeysSpec(front, sd, prefix, k);
      if k in MismatchedKeys(front, sd, prefix) {
        var i :| 0 <= i < n && prefix + front[i].name == k && Mismatch(front[i], sd, prefix);
        assert front[i] == ps[i];
      }
      if exists i :: 0 <= i < |ps| && prefix + ps[i].name == k && Mismatch(ps[i], sd, prefix) {
        var i :| 0 <= i < |ps| && prefix + ps[i].name == k && Mismatch(ps[i], sd, prefix);
        if i < n {
          assert front[i] == ps[i];
        }
      }
    }
  }

  /** The state dict's names that no expected name matches, in dict order. */
  function UnexpectedKeys<V>(sd: Dict<V>, expected: seq<string>): (r: seq<string>)
    ensures forall k :: k in r <==> k in Keys(sd) && k !in expected
    decreases |sd|
  {
    if sd == [] then []
    else
      assert Keys(sd) == [sd[0].0] + Keys(sd[1..]);
      (if sd[0].0 in expected then [] else [sd[0].0]) + UnexpectedKeys(sd[1..], expected)
  }

  /** What `load_state_dict(..., strict=False)` reports: the lists of missing
      and unexpected names, or the `RuntimeError` raised for shape mismatches
      (raised after every other entry has been copied). */
  datatype LoadResult =
    | IncompatibleKeys(missing: seq<string>, unexpected: seq<string>)
    | SizeMismatch(keys: seq<string>)

  function Report(missing: seq<string>, unexpected: seq<string>, mismatched: seq<string>): LoadResult
  {
    if mismatched == [] then IncompatibleKeys(missing, unexpected) else SizeMismatch(mismatched)
  }

  /** Loading the same state dict twice is loading it once. */
  lemma {:induction false} RestoreIdempotent<T>(ps: seq<Param<T>>, sd: Dict<Tensor<T>>, prefix: string)
    ensures RestoreAll(RestoreAll(ps, sd, prefix), sd, prefix) == RestoreAll(ps, sd, prefix)
  {
    var once := RestoreAll(ps, sd, prefix);
    var twice := RestoreAll(once, sd, prefix);
    forall i | 0 <= i < |ps| ensures twice[i] == once[i] {
      assert once[i] == Restored(ps[i], sd, prefix);
    }
  }

  /** Of two loads, the later one decides the value of every entry it
      matches, whatever the earlier one did. */
  lemma {:induction false} LaterRestoreWins<T>(p: Param<T>, first: Dict<Tensor<T>>, prefix1: string,
                            second: Dict<Tensor<T>>, prefix2: string, t: Tensor<T>)
    requires Get(second, prefix2 + p.name) == Some(t) && t.shape == p.value.shape
    ensures Restored(Restored(p, first, prefix1), second, prefix2).value == t
  {
    var q := Restored(p, first, prefix1);
    assert q.name == p.name && q.value.shape == p.value.shape;
  }

  /** One more entry visited by the copying loop. */
  lemma {:induction false} ReportStep<T>(ps: seq<Param<T>>, i: nat, sd: Dict<Tensor<T>>, prefix: string)
    requires i < |ps|
    ensures MissingKeys(ps[..i + 1], sd, prefix)
         == MissingKeys(ps[..i], sd, prefix)
            + (if Get(sd, prefix + ps[i].name).None? then [prefix + ps[i].name] else [])
    ensures MismatchedKeys(ps[..i + 1], sd, prefix)
         == MismatchedKeys(ps[..i], sd, prefix)
            + (if Mismatch(ps[i], sd, prefix) then [prefix + ps[i].name] else [])
  {
    assert ps[..i + 1][..i] == ps[..i];
  }

  /** A sequence that holds every entry restored is the restored module. */
  lemma {:induction false} RestoreAllElementwise<T>(ps: seq<Param<T>>, qs: seq<Param<T>>, sd: Dict<Tensor<T>>, prefix: string)
    requires |qs| == |ps| && forall j :: 0 <= j < |ps| ==> qs[j] == Restored(ps[j], sd, prefix)
    ensures qs == RestoreAll(ps, sd, prefix)
  {
  }

  /** A module's named state, restored in place by `load_state_dict`. */
  class Module<T> {
    var params: seq<Param<T>>

    constructor (ps: seq<Param<T>>)
      ensures params == ps
    {
      params := ps;
    }

    /** The copying loop of `load_state_dict` over this module's entries,
        looked up under `prefix`: matching entries are overwritten in place,
        absent and mis-shaped names are collected. */
    method RestoreFrom(sd: Dict<Tensor<T>>, prefix: string)
      returns (missing: seq<string>, mismatched: seq<string>)
      modifies this
      ensures params == RestoreAll(old(params), sd, prefix)
      ensures missing == MissingKeys(old(params), sd, prefix)
      ensures mismatched == MismatchedKeys(old(params), sd, prefix)
    {
      ghost var ps := params;
      missing, mismatched := [], [];
      var i := 0;
      while i < |params|
        invariant 0 <= i <= |params| == |ps|
        invariant forall j :: 0 <= j < i ==> params[j] == Restored(ps[j], sd, prefix)
        invariant forall j :: i <= j < |ps| ==> params[j] == ps[j]
        invariant missing == MissingKeys(ps[..i], sd, prefix)
        invariant mismatched == MismatchedKeys(ps[..i], sd, prefix)
      {
        ReportStep(ps, i, sd, prefix);
        var p := params[i];
        var key := prefix + p.name;
        assert p == ps[i];
        match Get(sd, key) {
          case None =>
            assert !Mismatch(ps[i], sd, prefix);
            missing := missing + [key];
          case Some(t) =>
            if t.shape == p.value.shape {
              assert !Mismatch(ps[i], sd, prefix);
              params := params[i := p.(value := t)];
            } else {
              assert Mismatch(ps[i], sd, prefix);
              mismatched := mismatched + [key];
            }
        }
        i := i + 1;
      }
      assert ps[..i] == ps;
      RestoreAllElementwise(ps, params, sd, prefix);
    }

    /** `load_state_dict(sd, strict=False)` called on this module itself. */
    method LoadStateDict(sd: Dict<Tensor<T>>) returns (result: LoadResult)
      modifies this
      ensures params == RestoreAll(old(params), sd, "")
      ensures result == Report(MissingKeys(old(params), sd, ""),
                               UnexpectedKeys(sd, Expected(old(params), "")),
                               MismatchedKeys(old(params), sd, ""))
    {
      var expected := Expected(params, "");
      var missing, mismatched := RestoreFrom(sd, "");
      result := Report(missing, UnexpectedKeys(sd, expected), mismatched);
    }
  }
}
