/** The multi-crop wrapper of src/biom3d/models/head.py (lines 160-195):
    crops of the same trailing size are batched together, the backbone
    runs once per batch, and the head runs on all the features in crop
    order. A crop is its shape and its rows along the first dimension;
    the backbone and the head are parameters. */
module MultiCrop {
  import opened Common

  /** A crop: its shape and its rows along the first dimension, which is
      what `torch.cat` joins. */
  datatype Crop<R> = Crop(shape: seq<nat>, rows: seq<R>)

  /** The wrapper's input: a single tensor or a list of crops. */
  datatype CropInput<R> = Single(crop: Crop<R>) | Crops(crops: seq<Crop<R>>)

  /** What the backbone returns: a tensor of feature rows, or a tuple whose
      first item is that tensor. */
  datatype BackboneOutput<F> = Features(rows: seq<F>) | Tuple(items: seq<seq<F>>)

  /** A non-list input is wrapped as a one-element list (lines 178-179). */
  function AsList<R>(x: CropInput<R>): (r: seq<Crop<R>>)
    ensures x.Single? ==> r == [x.crop]
    ensures x.Crops? ==> r == x.crops
  {
    match x
    case Single(c) => [c]
    case Crops(cs) => cs
  }

  /** `inp.shape[-1]` for every crop (line 181); a 0-d crop has none. */
  function TrailingSizes<R>(crops: seq<Crop<R>>): (r: Option<seq<nat>>)
    ensures r.Some? <==> forall i :: 0 <= i < |crops| ==> crops[i].shape != []
    ensures r.Some? ==> (|r.value| == |crops|
      && forall i :: 0 <= i < |crops| ==> r.value[i] == crops[i].shape[|crops[i].shape| - 1])
  {
    if crops == [] then Some([])
    else if crops[0].shape == [] then None
    else
      match TrailingSizes(crops[1..])
      case None => None
      case Some(rest) => Some([crops[0].shape[|crops[0].shape| - 1]] + rest)
  }

  /** The length of the run of equal values that starts `s`. */
  function LeadingRun<X(==)>(s: seq<X>): (n: nat)
    requires s != []
    ensures 1 <= n <= |s|
    decreases |s|
  {
    if |s| == 1 || s[1] != s[0] then 1 else 1 + LeadingRun(s[1..])
  }

  /** The leading run is a run, and a maximal one. */
  lemma {:induction false} LeadingRunIsMaximal<X>(s: seq<X>)
    requires s != []
    ensures forall k :: 0 <= k < LeadingRun(s) ==> s[k] == s[0]
    ensures LeadingRun(s) < |s| ==> s[LeadingRun(s)] != s[0]
    decreases |s|
  {
    if |s| > 1 && s[1] == s[0] {
      LeadingRunIsMaximal(s[1..]);
      forall k | 1 <= k < LeadingRun(s) ensures s[k] == s[0] {
        assert s[k] == s[1..][k - 1];
      }
    }
  }

  /** `torch.unique_consecutive(s, return_counts=True)[1]`: the length of
      each run of equal values, in order. */
  function RunCounts<X(==)>(s: seq<X>): (r: seq<nat>)
    ensures |r| <= |s|
    ensures s == [] <==> r == []
    decreases |s|
  {
    if s == [] then [] else var n := LeadingRun(s); [n] + RunCounts(s[n..])
  }

  /** `torch.cumsum(c, 0)`, the running totals started from `base`. */
  function CumSum(c: seq<nat>, base: nat): (r: seq<nat>)
    ensures |r| == |c|
  {
    if c == [] then [] else [base + c[0]] + CumSum(c[1..], base + c[0])
  }

  /** The batch end indices `idx_crops` (lines 180-183), for crops whose
      first index is `base`. */
  function GroupEnds<X(==)>(s: seq<X>, base: nat): (r: seq<nat>)
    ensures |r| == |RunCounts(s)| <= |s|
  {
    CumSum(RunCounts(s), base)
  }

  /** The first end closes the leading run, of length `n`; the rest are
      the ends of what follows it. */
  lemma {:induction false} GroupEndsUnfold<X>(s: seq<X>, base: nat, n: nat)
    requires s != [] && n == LeadingRun(s)
    ensures GroupEnds(s, base) == [base + n] + GroupEnds(s[n..], base + n)
  {
    RunCountsUnfold(s);
    CumSumUnfold(RunCounts(s), base);
    var c := RunCounts(s);
    assert c[1..] == RunCounts(s[n..]);
  }

  lemma {:induction false} RunCountsUnfold<X>(s: seq<X>)
    requires s != []
    ensures RunCounts(s) == [LeadingRun(s)] + RunCounts(s[LeadingRun(s)..])
  {
  }

  lemma {:induction false} CumSumUnfold(c: seq<nat>, base: nat)
    requires c != []
    ensures CumSum(c, base) == [base + c[0]] + CumSum(c[1..], base + c[0])
  {
  }

  /** Position `i` of `s` closes a run: it is the end, or the next value
      differs. */
  predicate IsRunEnd<X(==)>(s: seq<X>, i: int)
  {
    0 < i <= |s| && (i == |s| || s[i] != s[i - 1])
  }

  /** No end falls inside the leading run, of length `n`. */
  lemma {:induction false} EndsInsideLeadingRun<X>(s: seq<X>, base: nat, n: nat, i: int)
    requires s != [] && n == LeadingRun(s) && i < base + n
    ensures i !in GroupEnds(s, base) && !(base < i && IsRunEnd(s, i - base))
  {
    LeadingRunIsMaximal(s);
    GroupEndsAbove(s[n..], base + n);
    GroupEndsUnfold(s, base, n);
    if base < i {
      assert s[i - base] == s[0] == s[i - base - 1];
    }
  }

  /** The first end closes the leading run, of length `n`. */
  lemma {:induction false} EndOfLeadingRun<X>(s: seq<X>, base: nat, n: nat, i: int)
    requires s != [] && n == LeadingRun(s) && i == base + n
    ensures i in GroupEnds(s, base) && base < i && IsRunEnd(s, i - base)
  {
    LeadingRunIsMaximal(s);
    GroupEndsUnfold(s, base, n);
    assert n < |s| ==> s[n - 1] == s[0];
  }

  /** Past the leading run, of length `n`, the ends of `s` are those of
      what follows the leading run. */
  lemma {:induction false} EndsAfterLeadingRun<X>(s: seq<X>, base: nat, n: nat, i: int)
    requires s != [] && n == LeadingRun(s) && i > base + n
    ensures i in GroupEnds(s, base) <==> i in GroupEnds(s[n..], base + n)
  {
    GroupEndsUnfold(s, base, n);
  }

  /** A run end past `n` is a run end of the suffix from `n`, shifted. */
  lemma {:induction false} RunEndShift<X>(s: seq<X>, n: nat, j: int)
    requires n <= |s| && j > n
    ensures IsRunEnd(s, j) <==> IsRunEnd(s[n..], j - n)
  {
    if j < |s| {
      assert s[n..][j - n] == s[j] && s[n..][j - n - 1] == s[j - 1];
    }
  }

  /** The ends are exactly the positions where a run of equal trailing
      sizes closes, so every batch is a maximal run. */
  lemma {:induction false} GroupEndsAreRunEnds<X>(s: seq<X>, base: nat, i: int)
    ensures i in GroupEnds(s, base) <==> base < i && IsRunEnd(s, i - base)
    decreases |s|
  {
    if s != [] {
      var n := LeadingRun(s);
      if i < base + n {
        EndsInsideLeadingRun(s, base, n, i);
      } else if i == base + n {
        EndOfLeadingRun(s, base, n, i);
      } else {
        EndsAfterLeadingRun(s, base, n, i);
        RunEndShift(s, n, i - base);
        GroupEndsAreRunEnds(s[n..], base + n, i);
      }
    }
  }

  /** Every end lies past `base`, and at most `|s|` past it. */
  lemma {:induction false} GroupEndsAbove<X>(s: seq<X>, base: nat)
    ensures forall e :: e in GroupEnds(s, base) ==> base < e <= base + |s|
    decreases |s|
  {
    if s != [] {
      var n := LeadingRun(s);
      GroupEndsUnfold(s, base, n);
      GroupEndsAbove(s[n..], base + n);
    }
  }

  /** A strictly rising sequence stays rising with a smaller value in
      front. */
  lemma {:induction false} RisingCons(e: nat, later: seq<nat>)
    requires forall k :: 0 <= k < |later| - 1 ==> later[k] < later[k + 1]
    requires forall x :: x in later ==> e < x
    ensures var ends := [e] + later;
            forall k :: 0 <= k < |ends| - 1 ==> ends[k] < ends[k + 1]
  {
    var ends := [e] + later;
    forall k | 0 <= k < |ends| - 1 ensures ends[k] < ends[k + 1] {
      if k == 0 {
        assert ends[1] == later[0] && later[0] in later;
      } else {
        assert ends[k] == later[k - 1] && ends[k + 1] == later[k];
      }
    }
  }

  /** The ends rise strictly (lines 180-183). */
  lemma {:induction false} GroupEndsRise<X>(s: seq<X>, base: nat)
    ensures var ends := GroupEnds(s, base);
            forall k :: 0 <= k < |ends| - 1 ==> ends[k] < ends[k + 1]
    decreases |s|
  {
    if s != [] {
      var n := LeadingRun(s);
      GroupEndsRise(s[n..], base + n);
      GroupEndsAbove(s[n..], base + n);
      GroupEndsUnfold(s, base, n);
      RisingCons(base + n, GroupEnds(s[n..], base + n));
    }
  }

  /** There is an end exactly when there is a crop, and the last end is
      the number of crops, so every crop is in some batch (lines 180-185). */
  lemma {:induction false} GroupEndsLast<X>(s: seq<X>, base: nat)
    ensures var ends := GroupEnds(s, base);
            (s == [] <==> ends == []) && (s != [] ==> ends[|ends| - 1] == base + |s|)
    decreases |s|
  {
    if s != [] {
      var n := LeadingRun(s);
      var later := GroupEnds(s[n..], base + n);
      GroupEndsLast(s[n..], base + n);
      GroupEndsUnfold(s, base, n);
      if later != [] {
        var ends := GroupEnds(s, base);
        assert ends[|ends| - 1] == later[|later| - 1];
      }
    }
  }

  /** The ends a batching loop may walk: rising from 0 to at most `n`. */
  predicate ValidEnds(ends: seq<nat>, n: nat)
  {
    (forall k :: 0 <= k < |ends| - 1 ==> ends[k] < ends[k + 1])
    && (forall k :: 0 <= k < |ends| ==> ends[k] <= n)
  }

  /** Where batch `k` starts: where batch `k - 1` ended. */
  function Start(ends: seq<nat>, k: nat): nat
    requires k <= |ends|
  {
    if k == 0 then 0 else ends[k - 1]
  }

  /** `torch.cat` along the first dimension. */
  function Rows<R>(crops: seq<Crop<R>>): seq<R>
  {
    if crops == [] then [] else Rows(crops[..|crops| - 1]) + crops[|crops| - 1].rows
  }

  lemma {:induction false} RowsConcat<R>(a: seq<Crop<R>>, b: seq<Crop<R>>)
    ensures Rows(a + b) == Rows(a) + Rows(b)
    decreases |b|
  {
    if b == [] {
      assert a + b == a;
    } else {
      var n := |b| - 1;
      assert (a + b)[..|a + b| - 1] == a + b[..n];
      RowsConcat(a, b[..n]);
    }
  }

  /** The backbone inputs of the first `k` batches. */
  function Batches<R>(crops: seq<Crop<R>>, ends: seq<nat>, k: nat): (r: seq<seq<R>>)
    requires k <= |ends| && ValidEnds(ends, |crops|)
    ensures |r| == k
  {
    if k == 0 then []
    else Batches(crops, ends, k - 1) + [Rows(crops[Start(ends, k - 1)..ends[k - 1]])]
  }

  function Flat<R>(parts: seq<seq<R>>): seq<R>
  {
    if parts == [] then [] else Flat(parts[..|parts| - 1]) + parts[|parts| - 1]
  }

  /** The batches together hold every row of the crops they cover, in
      order. */
  lemma {:induction false} BatchesCoverRows<R>(crops: seq<Crop<R>>, ends: seq<nat>, k: nat)
    requires k <= |ends| && ValidEnds(ends, |crops|)
    ensures Flat(Batches(crops, ends, k)) == Rows(crops[..Start(ends, k)])
  {
    if k == 0 {
      assert crops[..0] == [];
    } else {
      BatchesCoverRows(crops, ends, k - 1);
      var b := Batches(crops, ends, k);
      assert b[..k - 1] == Batches(crops, ends, k - 1);
      if k >= 2 {
        assert ends[k - 2] < ends[k - 1];
      }
      assert crops[..Start(ends, k)] == crops[..Start(ends, k - 1)] + crops[Start(ends, k - 1)..ends[k - 1]];
      RowsConcat(crops[..Start(ends, k - 1)], crops[Start(ends, k - 1)..ends[k - 1]]);
    }
  }

  /** The first item of the backbone's output (lines 189-190); an empty
      tuple has none. */
  function Kept<F>(out: BackboneOutput<F>): (r: Option<seq<F>>)
    ensures out.Features? ==> r == Some(out.rows)
    ensures out.Tuple? ==> (r.Some? <==> out.items != []) && (r.Some? ==> r.value == out.items[0])
  {
    match out
    case Features(rows) => Some(rows)
    case Tuple(items) => if items == [] then None else Some(items[0])
  }

  /** The features accumulated over the first `k` batches, or `None` once
      a batch's output has no first item. */
  function Collected<R, F>(crops: seq<Crop<R>>, ends: seq<nat>, k: nat,
                           backbone: seq<R> -> BackboneOutput<F>): (r: Option<seq<F>>)
    requires k <= |ends| && ValidEnds(ends, |crops|)
    ensures 0 < k && r.Some? ==> Kept(backbone(Rows(crops[Start(ends, k - 1)..ends[k - 1]]))).Some?
  {
    if k == 0 then Some([])
    else
      match Collected(crops, ends, k - 1, backbone)
      case None => None
      case Some(acc) =>
        match Kept(backbone(Rows(crops[Start(ends, k - 1)..ends[k - 1]])))
        case None => None
        case Some(out) => Some(acc + out)
  }

  /** Batch `n` (counted from 1) is the first whose output has no first
      item: the batches before it were all collected. */
  predicate FirstFailure<R, F>(crops: seq<Crop<R>>, ends: seq<nat>, n: nat,
                               backbone: seq<R> -> BackboneOutput<F>)
    requires ValidEnds(ends, |crops|)
  {
    0 < n <= |ends| && Collected(crops, ends, n - 1, backbone).Some? && Collected(crops, ends, n, backbone).None?
  }

  /** Once a batch's output has no first item, nothing is collected. */
  lemma {:induction false} CollectedStopsAtError<R, F>(crops: seq<Crop<R>>, ends: seq<nat>, k: nat, m: nat,
                                                        backbone: seq<R> -> BackboneOutput<F>)
    requires k <= m <= |ends| && ValidEnds(ends, |crops|)
    requires Collected(crops, ends, k, backbone).None?
    ensures Collected(crops, ends, m, backbone).None?
    decreases m
  {
    if m > k {
      CollectedStopsAtError(crops, ends, k, m - 1, backbone);
    }
  }

  /** The input can be batched: it has a crop, and every crop a trailing
      size. */
  predicate Batchable<R>(x: CropInput<R>)
  {
    AsList(x) != [] && TrailingSizes(AsList(x)).Some?
  }

  /** The batch ends of an input, when it can be batched. */
  function Ends<R>(x: CropInput<R>): (r: seq<nat>)
    ensures ValidEnds(r, |AsList(x)|)
    ensures Batchable(x) ==> |r| > 0
  {
    match TrailingSizes(AsList(x))
    case None => []
    case Some(sizes) =>
      GroupEndsValid(sizes);
      GroupEnds(sizes, 0)
  }

  /** The loop of `MultiCropWrapper.forward` (lines 185-193): one backbone
      call per batch, the kept features appended in order, stopping at the
      first output without a first item. */
  method RunBatches<R, F>(crops: seq<Crop<R>>, ends: seq<nat>, backbone: seq<R> -> BackboneOutput<F>)
    returns (output: Option<seq<F>>, calls: seq<seq<R>>)
    requires 0 < |ends| && ValidEnds(ends, |crops|)
    ensures 0 < |calls| <= |ends| && calls == Batches(crops, ends, |calls|)
    ensures output == Collected(crops, ends, |ends|, backbone)
    ensures output.Some? ==> |calls| == |ends|
    ensures output.None? ==> FirstFailure(crops, ends, |calls|, backbone)
  {
    var start := 0;
    var acc: seq<F> := [];
    calls := [];
    var k := 0;
    while k < |ends|
      invariant 0 <= k <= |ends|
      invariant start == Start(ends, k)
      invariant calls == Batches(crops, ends, k)
      invariant Collected(crops, ends, k, backbone) == Some(acc)
    {
      var end := ends[k];
      if k > 0 {
        assert ends[k - 1] < ends[k];
      }
      var batch := Rows(crops[start..end]);
      assert Batches(crops, ends, k + 1) == calls + [batch];
      calls := calls + [batch];
      var out := Kept(backbone(batch));
      if out.None? {
        assert Collected(crops, ends, k + 1, backbone).None?;
        CollectedStopsAtError(crops, ends, k + 1, |ends|, backbone);
        return None, calls;
      }
      assert Collected(crops, ends, k + 1, backbone) == Some(acc + out.value);
      acc := acc + out.value;
      start := end;
      k := k + 1;
    }
    output := Some(acc);
  }

  /** `MultiCropWrapper.forward` (lines 176-195). Besides the head's
      result it returns the inputs the backbone was called on, in order.
      An empty crop list or a 0-d crop raises before any call; an empty
      tuple from the backbone raises after the calls made so far. */
  method Forward<R, F, Y>(x: CropInput<R>, backbone: seq<R> -> BackboneOutput<F>, head: seq<F> -> Y)
    returns (r: Option<Y>, calls: seq<seq<R>>)
    ensures !Batchable(x) ==> r.None? && calls == []
    ensures Batchable(x) ==> 0 < |calls| <= |Ends(x)| && calls == Batches(AsList(x), Ends(x), |calls|)
    ensures Batchable(x) ==> r == match Collected(AsList(x), Ends(x), |Ends(x)|, backbone)
                                  case None => None
                                  case Some(features) => Some(head(features))
    ensures Batchable(x) && r.Some? ==> |calls| == |Ends(x)|
    ensures Batchable(x) && r.None? ==> FirstFailure(AsList(x), Ends(x), |calls|, backbone)
  {
    if !Batchable(x) {
      return None, [];
    }
    var output;
    output, calls := RunBatches(AsList(x), Ends(x), backbone);
    r := if output.None? then None else Some(head(output.value));
  }

  /** The ends of any sequence of sizes are a valid walk that finishes
      at the last crop. */
  lemma {:induction false} GroupEndsValid<X>(s: seq<X>)
    ensures ValidEnds(GroupEnds(s, 0), |s|)
    ensures s != [] ==> |GroupEnds(s, 0)| > 0 && GroupEnds(s, 0)[|GroupEnds(s, 0)| - 1] == |s|
  {
    var ends := GroupEnds(s, 0);
    GroupEndsRise(s, 0);
    GroupEndsLast(s, 0);
    GroupEndsAbove(s, 0);
    forall k | 0 <= k < |ends| ensures ends[k] <= |s| {
      assert ends[k] in ends;
    }
  }

  /** Every crop's rows reach the backbone exactly once, in crop order:
      the batches together are all the rows. */
  lemma {:induction false} BatchesAreAllRows<R, X>(crops: seq<Crop<R>>, sizes: seq<X>)
    requires |sizes| == |crops|
    ensures ValidEnds(GroupEnds(sizes, 0), |crops|)
    ensures Flat(Batches(crops, GroupEnds(sizes, 0), |GroupEnds(sizes, 0)|)) == Rows(crops)
  {
    var ends := GroupEnds(sizes, 0);
    GroupEndsValid(sizes);
    BatchesCoverRows(crops, ends, |ends|);
    assert crops[..Start(ends, |ends|)] == crops;
  }

  /** A backbone that maps each row on its own and returns a plain tensor
      leaves the batching invisible: the head sees the rows of all crops,
      mapped, in crop order. */
  lemma {:induction false} RowWiseBackbone<R, F>(crops: seq<Crop<R>>, ends: seq<nat>, k: nat,
                                                  g: R -> F, backbone: seq<R> -> BackboneOutput<F>)
    requires k <= |ends| && ValidEnds(ends, |crops|)
    requires forall rows :: backbone(rows) == Features(MapRows(g, rows))
    ensures Collected(crops, ends, k, backbone) == Some(MapRows(g, Flat(Batches(crops, ends, k))))
  {
    if k > 0 {
      RowWiseBackbone(crops, ends, k - 1, g, backbone);
      var prev := Batches(crops, ends, k - 1);
      var batch := Rows(crops[Start(ends, k - 1)..ends[k - 1]]);
      assert Batches(crops, ends, k) == prev + [batch];
      FlatSnoc(prev, batch);
      assert backbone(batch) == Features(MapRows(g, batch));
      MapRowsConcat(g, Flat(prev), batch);
    }
  }

  lemma {:induction false} FlatSnoc<R>(parts: seq<seq<R>>, last: seq<R>)
    ensures Flat(parts + [last]) == Flat(parts) + last
  {
    assert (parts + [last])[..|parts|] == parts;
  }

  function MapRows<R, F>(g: R -> F, rows: seq<R>): (r: seq<F>)
    ensures |r| == |rows| && forall i :: 0 <= i < |rows| ==> r[i] == g(rows[i])
  {
    seq(|rows|, i requires 0 <= i < |rows| => g(rows[i]))
  }

  lemma {:induction false} MapRowsConcat<R, F>(g: R -> F, a: seq<R>, b: seq<R>)
    ensures MapRows(g, a + b) == MapRows(g, a) + MapRows(g, b)
  {
  }

  /** Crops of trailing sizes 96, 96, 64, 64, 64 (two global views then
      three local ones) make two batches, ending at 2 and 5. */
  lemma {:induction false} TwoResolutions(sizes: seq<nat>)
    requires sizes == [96, 96, 64, 64, 64]
    ensures GroupEnds(sizes, 0) == [2, 5]
  {
    var local := sizes[2..];
    assert local == [64, 64, 64];
    assert LeadingRun(local[2..]) == 1;
    assert LeadingRun(local[1..]) == 2;
    assert LeadingRun(local) == 3;
    assert RunCounts(local) == [3] by {
      assert local[3..] == [];
    }
    assert LeadingRun(sizes[1..]) == 1;
    assert LeadingRun(sizes) == 2;
    assert RunCounts(sizes) == [2, 3];
    assert CumSum([3], 2) == [5];
  }

  /** End to end: with a row-wise backbone, the head of the wrapper sees
      every row of every crop, mapped, in crop order, whatever the
      grouping. */
  lemma {:induction false} RowWiseForward<R, F>(x: CropInput<R>, g: R -> F, backbone: seq<R> -> BackboneOutput<F>)
    requires Batchable(x)
    requires forall rows :: backbone(rows) == Features(MapRows(g, rows))
    ensures Collected(AsList(x), Ends(x), |Ends(x)|, backbone) == Some(MapRows(g, Rows(AsList(x))))
  {
    var crops := AsList(x);
    var sizes := TrailingSizes(crops).value;
    BatchesAreAllRows(crops, sizes);
    RowWiseBackbone(crops, Ends(x), |Ends(x)|, g, backbone);
  }

  /** A single tensor is one batch: the backbone runs once, on its rows. */
  lemma {:induction false} SingleTensorOneCall<R>(c: Crop<R>)
    requires c.shape != []
    ensures Ends(Single(c)) == [1]
    ensures Batches([c], [1], 1) == [c.rows]
  {
    var sizes := TrailingSizes([c]).value;
    assert [c][1..] == [];
    assert sizes == [c.shape[|c.shape| - 1]];
    assert LeadingRun(sizes) == 1;
    assert sizes[1..] == [];
    assert RunCounts(sizes) == [1];
    assert [c][0..1] == [c];
    assert [c][..0] == [];
    assert Rows([c]) == c.rows;
    assert Batches([c], [1], 1) == Batches([c], [1], 0) + [Rows([c][0..1])];
  }
}
