/** Per-class bucketing of stage embeddings during imprinting
    (train_RFB_imprinted.py, lines 218-284). Every stage starts with
    `NWay` empty buckets; each support episode selects the embeddings at
    matched priors, tags each with its matched class id, and appends the
    rows of class `c` to bucket `c - 1`. Matching itself (box_utils.match)
    is not part of this model: its per-prior results are inputs. */
module Buckets {
  import opened Cascade

  /** One embedding row. */
  type Row = seq<real>

  /** Matching result for one prior of one image: `conf_t` and `obj_t`. */
  datatype PriorTarget = PriorTarget(conf: int, obj: bool)

  /** A selected embedding row with the class id it was matched to. */
  datatype Tagged = Tagged(cls: int, row: Row)

  /** Per-image sequences laid end to end: the order in which boolean-mask
      indexing visits a `[num, num_priors]` tensor. */
  function Flatten<T>(xss: seq<seq<T>>): (all: seq<T>)
    ensures |xss| == 0 ==> all == []
    decreases |xss|
  {
    if |xss| == 0 then [] else xss[0] + Flatten(xss[1..])
  }

  /** Per-image sequences of equal lengths flatten to sequences of equal
      length, so that position `j` names the same prior in both. */
  lemma {:induction false} FlattenAligned<T, U>(xss: seq<seq<T>>, yss: seq<seq<U>>)
    requires |xss| == |yss|
    requires forall n :: 0 <= n < |xss| ==> |xss[n]| == |yss[n]|
    ensures |Flatten(xss)| == |Flatten(yss)|
    decreases |xss|
  {
    if |xss| > 0 {
      FlattenAligned(xss[1..], yss[1..]);
    }
  }

  /** Each position in `idx` is greater than the one before it. */
  predicate Increasing(idx: seq<nat>) {
    forall k, l :: 0 <= k < l < |idx| ==> idx[k] < idx[l]
  }

  /** The positions of the matched priors (`obj_t` true), in increasing
      order: the positions a boolean mask selects. */
  function MatchedIndices(targets: seq<PriorTarget>): (idx: seq<nat>)
    ensures |idx| <= |targets|
    ensures Increasing(idx)
    ensures forall k :: 0 <= k < |idx| ==> idx[k] < |targets| && targets[idx[k]].obj
    ensures forall j :: 0 <= j < |targets| && targets[j].obj ==> j in idx
    decreases |targets|
  {
    if |targets| == 0 then []
    else
      var n := |targets| - 1;
      var init := MatchedIndices(targets[..n]);
      assert forall j :: 0 <= j < n ==> targets[..n][j] == targets[j];
      init + (if targets[n].obj then [n] else [])
  }

  /** `xs[obj_t]` for a tensor `xs` indexed like `targets`: the entries at
      matched priors, in order. */
  function Select<T>(targets: seq<PriorTarget>, xs: seq<T>): (sel: seq<T>)
    requires |xs| == |targets|
    ensures |sel| == |MatchedIndices(targets)|
    ensures forall k :: 0 <= k < |sel| ==> sel[k] == xs[MatchedIndices(targets)[k]]
    decreases |targets|
  {
    if |targets| == 0 then []
    else
      var n := |targets| - 1;
      Select(targets[..n], xs[..n]) + (if targets[n].obj then [xs[n]] else [])
  }

  /** The entries of `xs` at the positions `idx`, in the order of `idx`. */
  function Gather<T>(xs: seq<T>, idx: seq<nat>): (g: seq<T>)
    requires forall k :: 0 <= k < |idx| ==> idx[k] < |xs|
    ensures |g| == |idx|
  {
    seq(|idx|, k requires 0 <= k < |idx| => xs[idx[k]])
  }

  /** The class ids of a target sequence, one per prior. */
  function Confs(targets: seq<PriorTarget>): (c: seq<int>)
    ensures |c| == |targets|
  {
    seq(|targets|, j requires 0 <= j < |targets| => targets[j].conf)
  }

  /** `conf_t[obj_t]` (line 262): one class id per matched prior, in the
      order of the priors. */
  function Positives(targets: seq<PriorTarget>): (cls: seq<int>)
    ensures |cls| == |MatchedIndices(targets)|
    ensures forall k :: 0 <= k < |cls| ==> cls[k] == targets[MatchedIndices(targets)[k]].conf
    ensures forall c :: c in cls <==> exists j :: 0 <= j < |targets| && targets[j] == PriorTarget(c, true)
  {
    var cls := Select(targets, Confs(targets));
    PositivesMembers(targets, cls);
    cls
  }

  lemma PositivesMembers(targets: seq<PriorTarget>, cls: seq<int>)
    requires |cls| == |MatchedIndices(targets)|
    requires forall k :: 0 <= k < |cls| ==> cls[k] == targets[MatchedIndices(targets)[k]].conf
    ensures forall c :: c in cls <==> exists j :: 0 <= j < |targets| && targets[j] == PriorTarget(c, true)
  {
    var idx := MatchedIndices(targets);
    forall c | c in cls
      ensures exists j :: 0 <= j < |targets| && targets[j] == PriorTarget(c, true)
    {
      var k :| 0 <= k < |cls| && cls[k] == c;
      assert targets[idx[k]] == PriorTarget(c, true);
    }
    forall c | exists j :: 0 <= j < |targets| && targets[j] == PriorTarget(c, true)
      ensures c in cls
    {
      var j :| 0 <= j < |targets| && targets[j] == PriorTarget(c, true);
      assert j in idx;
      var k :| 0 <= k < |idx| && idx[k] == j;
      assert cls[k] == c;
    }
  }

  /** The episode's tagged rows (lines 261-284). One mask `obj_t` selects
      both the class ids `conf_t[obj_t]` and the feature rows
      `conf_data[obj_t]`; `feats` holds one feature row per prior of every
      image, indexed like `batch`. `embed` is the stage's cascade applied
      to the selected feature matrix, which keeps one output row per input
      row (Cascade.Composite). Row `k` is tagged with the class id of the
      `k`-th matched prior, and its embedding input is that prior's feature
      row; every matched prior contributes exactly one row. */
  function EpisodeRows(batch: seq<seq<PriorTarget>>, feats: seq<seq<Row>>,
                       embed: seq<Row> -> seq<Row>): (ep: seq<Tagged>)
    requires |feats| == |batch|
    requires forall n :: 0 <= n < |batch| ==> |feats[n]| == |batch[n]|
    requires forall m :: |embed(m)| == |m|
    ensures |ep| == |MatchedIndices(Flatten(batch))|
    ensures (FlattenAligned(batch, feats);
      var flat := Flatten(batch);
      var idx := MatchedIndices(flat);
      forall k :: 0 <= k < |ep| ==>
        ep[k] == Tagged(flat[idx[k]].conf, embed(Gather(Flatten(feats), idx))[k]))
  {
    FlattenAligned(batch, feats);
    var flat := Flatten(batch);
    var selected := Select(flat, Flatten(feats));
    assert selected == Gather(Flatten(feats), MatchedIndices(flat));
    var out := embed(selected);
    var cls := Positives(flat);
    seq(|out|, k requires 0 <= k < |out| => Tagged(cls[k], out[k]))
  }

  /** `new_features[cls_idx == c]`: the rows tagged `c`, in order. */
  function RowsOf(ep: seq<Tagged>, c: int): (rows: seq<Row>)
    ensures |rows| <= |ep|
    ensures forall k :: 0 <= k < |rows| ==> Tagged(c, rows[k]) in ep
    decreases |ep|
  {
    if |ep| == 0 then []
    else (if ep[0].cls == c then [ep[0].row] else []) + RowsOf(ep[1..], c)
  }

  /** `[torch.empty(0) for _ in range(n)]`. */
  function EmptyBuckets(n: nat): (b: seq<seq<Row>>)
    ensures |b| == n
    ensures forall i :: 0 <= i < n ==> b[i] == []
  {
    seq(n, i => [])
  }

  /** One episode's update `way_list = [cat(way_list[i], rows of class i + 1)]`
      (line 267): every bucket keeps what it held, and whatever it gains
      was tagged with its class in the episode. */
  function AddEpisode(b: seq<seq<Row>>, ep: seq<Tagged>): (r: seq<seq<Row>>)
    ensures |r| == |b|
    ensures forall i :: 0 <= i < |b| ==> |b[i]| <= |r[i]| && r[i][..|b[i]|] == b[i]
    ensures forall i, k :: 0 <= i < |b| && |b[i]| <= k < |r[i]| ==> Tagged(i + 1, r[i][k]) in ep
  {
    seq(|b|, i requires 0 <= i < |b| => b[i] + RowsOf(ep, i + 1))
  }

  /** The episodes of a stage, in order, folded into the buckets: no
      bucket loses a row, and every row it gains was tagged with its class
      in one of the episodes. */
  function Accumulate(b: seq<seq<Row>>, eps: seq<seq<Tagged>>): (r: seq<seq<Row>>)
    ensures |r| == |b|
    ensures forall i :: 0 <= i < |b| ==> |b[i]| <= |r[i]| && r[i][..|b[i]|] == b[i]
    ensures forall i, k :: 0 <= i < |b| && |b[i]| <= k < |r[i]| ==>
      Tagged(i + 1, r[i][k]) in FlattenEpisodes(eps)
    decreases |eps|
  {
    if |eps| == 0 then b
    else AddEpisode(Accumulate(b, eps[..|eps| - 1]), eps[|eps| - 1])
  }

  /** The buckets at the end of a stage's support episodes. The number of
      buckets is `NWay`, whatever the number of images per episode. */
  function StageBuckets(eps: seq<seq<Tagged>>): (b: seq<seq<Row>>)
    ensures |b| == NWay
  {
    Accumulate(EmptyBuckets(NWay), eps)
  }

  /** All tagged rows of a stage, episode after episode. */
  function FlattenEpisodes(eps: seq<seq<Tagged>>): seq<Tagged>
    decreases |eps|
  {
    if |eps| == 0 then [] else FlattenEpisodes(eps[..|eps| - 1]) + eps[|eps| - 1]
  }

  /** Selecting a class commutes with concatenation: the rows of an
      earlier episode stay ahead of those of a later one. */
  lemma {:induction false} RowsOfConcat(a: seq<Tagged>, b: seq<Tagged>, c: int)
    ensures RowsOf(a + b, c) == RowsOf(a, c) + RowsOf(b, c)
    decreases |a|
  {
    if |a| > 0 {
      assert (a + b)[0] == a[0];
      assert (a + b)[1..] == a[1..] + b;
      RowsOfConcat(a[1..], b, c);
    } else {
      assert a + b == b;
    }
  }

  /** A row is selected for class `c` exactly when some entry carries it
      with tag `c`. */
  lemma {:induction false} RowsOfMembers(ep: seq<Tagged>, c: int, r: Row)
    ensures r in RowsOf(ep, c) <==> exists j :: 0 <= j < |ep| && ep[j] == Tagged(c, r)
    decreases |ep|
  {
    if |ep| > 0 {
      RowsOfMembers(ep[1..], c, r);
      if exists j :: 0 <= j < |ep| - 1 && ep[1..][j] == Tagged(c, r) {
        var j :| 0 <= j < |ep| - 1 && ep[1..][j] == Tagged(c, r);
        assert ep[j + 1] == Tagged(c, r);
      }
      if exists j :: 0 <= j < |ep| && ep[j] == Tagged(c, r) {
        var j :| 0 <= j < |ep| && ep[j] == Tagged(c, r);
        if j > 0 {
          assert ep[1..][j - 1] == Tagged(c, r);
        }
      }
    }
  }

  /** Bucket `i` grows by the rows of class `i + 1` of every episode, in
      episode order. */
  lemma {:induction false} AccumulateContents(b: seq<seq<Row>>, eps: seq<seq<Tagged>>, i: nat)
    requires i < |b|
    ensures Accumulate(b, eps)[i] == b[i] + RowsOf(FlattenEpisodes(eps), i + 1)
    decreases |eps|
  {
    if |eps| > 0 {
      var init := eps[..|eps| - 1];
      var last := eps[|eps| - 1];
      var prev := Accumulate(b, init);
      AccumulateContents(b, init, i);
      assert FlattenEpisodes(eps) == FlattenEpisodes(init) + last;
      assert Accumulate(b, eps) == AddEpisode(prev, last);
      assert AddEpisode(prev, last)[i] == prev[i] + RowsOf(last, i + 1);
      RowsOfConcat(FlattenEpisodes(init), last, i + 1);
    }
  }

  /** After a stage, bucket `i` holds exactly the rows tagged `i + 1`, in
      episode order and, within an episode, in selection order. */
  lemma {:induction false} BucketHoldsClass(eps: seq<seq<Tagged>>, i: nat)
    requires i < NWay
    ensures StageBuckets(eps)[i] == RowsOf(FlattenEpisodes(eps), i + 1)
  {
    AccumulateContents(EmptyBuckets(NWay), eps, i);
  }

  /** The entries whose class id lies in `1..n`. */
  function KeepInRange(x: seq<Tagged>, n: nat): (y: seq<Tagged>)
    ensures |y| <= |x|
    decreases |x|
  {
    if |x| == 0 then []
    else (if 1 <= x[0].cls <= n then [x[0]] else []) + KeepInRange(x[1..], n)
  }

  /** Entries with a class id outside `1..n` reach no bucket: dropping them
      leaves every bucket as it was. */
  lemma {:induction false} OutOfRangeIgnored(x: seq<Tagged>, n: nat, i: nat)
    requires i < n
    ensures RowsOf(KeepInRange(x, n), i + 1) == RowsOf(x, i + 1)
    decreases |x|
  {
    if |x| > 0 {
      OutOfRangeIgnored(x[1..], n, i);
      var head := if 1 <= x[0].cls <= n then [x[0]] else [];
      RowsOfConcat(head, KeepInRange(x[1..], n), i + 1);
      assert RowsOf([], i + 1) == [];
      if 1 <= x[0].cls <= n {
        assert [x[0]][1..] == [];
      }
    }
  }

  /** Total number of rows held by a list of buckets. */
  function SumSizes(b: seq<seq<Row>>): nat
    decreases |b|
  {
    if |b| == 0 then 0 else SumSizes(b[..|b| - 1]) + |b[|b| - 1]|
  }

  lemma {:induction false} InRangeStep(x: seq<Tagged>, n: nat)
    requires n >= 1
    ensures |KeepInRange(x, n)| == |KeepInRange(x, n - 1)| + |RowsOf(x, n)|
    decreases |x|
  {
    if |x| > 0 {
      InRangeStep(x[1..], n);
    }
  }

  lemma {:induction false} SizesCountInRange(b: seq<seq<Row>>, x: seq<Tagged>)
    requires forall i :: 0 <= i < |b| ==> b[i] == RowsOf(x, i + 1)
    ensures SumSizes(b) == |KeepInRange(x, |b|)|
    decreases |b|
  {
    if |b| == 0 {
      KeepNothing(x);
    } else {
      SizesCountInRange(b[..|b| - 1], x);
      InRangeStep(x, |b|);
    }
  }

  lemma {:induction false} KeepNothing(x: seq<Tagged>)
    ensures KeepInRange(x, 0) == []
    decreases |x|
  {
    if |x| > 0 {
      KeepNothing(x[1..]);
    }
  }

  /** The buckets of a stage together hold exactly as many rows as the
      stage selected with a class id in `1..NWay`. */
  lemma TotalRows(eps: seq<seq<Tagged>>)
    ensures SumSizes(StageBuckets(eps)) == |KeepInRange(FlattenEpisodes(eps), NWay)|
  {
    var b := StageBuckets(eps);
    forall i | 0 <= i < |b|
      ensures b[i] == RowsOf(FlattenEpisodes(eps), i + 1)
    {
      BucketHoldsClass(eps, i);
    }
    SizesCountInRange(b, FlattenEpisodes(eps));
  }

  /** Every row has width `w`. */
  predicate RowsHaveWidth(rows: seq<Row>, w: nat) {
    forall k :: 0 <= k < |rows| ==> |rows[k]| == w
  }

  /** Buckets filled from rows of width `w` (the `view(-1, w)` of the stage)
      hold only rows of width `w`. */
  lemma {:induction false} BucketRowWidths(eps: seq<seq<Tagged>>, w: nat, i: nat)
    requires forall e, k :: 0 <= e < |eps| && 0 <= k < |eps[e]| ==> |eps[e][k].row| == w
    requires i < NWay
    ensures RowsHaveWidth(StageBuckets(eps)[i], w)
  {
    BucketHoldsClass(eps, i);
    var x := FlattenEpisodes(eps);
    FlattenWidths(eps, w);
    forall k | 0 <= k < |StageBuckets(eps)[i]|
      ensures |StageBuckets(eps)[i][k]| == w
    {
      var r := StageBuckets(eps)[i][k];
      RowsOfMembers(x, i + 1, r);
    }
  }

  lemma {:induction false} FlattenWidths(eps: seq<seq<Tagged>>, w: nat)
    requires forall e, k :: 0 <= e < |eps| && 0 <= k < |eps[e]| ==> |eps[e][k].row| == w
    ensures forall k :: 0 <= k < |FlattenEpisodes(eps)| ==> |FlattenEpisodes(eps)[k].row| == w
    decreases |eps|
  {
    if |eps| > 0 {
      FlattenWidths(eps[..|eps| - 1], w);
    }
  }
}
