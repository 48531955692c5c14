/** Resuming from a checkpoint (train_RFB_imprinted.py, lines 131-143).
    A checkpoint written by a `DataParallel` wrapper names every parameter
    `module.<name>`; before loading, the script copies the checkpoint into
    a fresh ordered dictionary, dropping that 7-character prefix once from
    every name that carries it. Parameter tensors are opaque values `V`. */
module Checkpoint {
  import opened Outcomes
  import opened Strings

  /** The key prefix added by a data-parallel wrapper. */
  const DataParallelPrefix: string := "module."

  /** One (parameter name, tensor) pair of a state dictionary. */
  datatype Entry<V> = Entry(key: string, value: V)

  /** The names of an ordered dictionary, in order. */
  function Keys<V>(d: seq<Entry<V>>): (ks: seq<string>)
    ensures |ks| == |d|
    ensures forall i :: 0 <= i < |d| ==> ks[i] == d[i].key
  {
    seq(|d|, i requires 0 <= i < |d| => d[i].key)
  }

  /** An ordered dictionary holds each name at most once. */
  predicate UniqueKeys<V>(d: seq<Entry<V>>) {
    forall i, j :: 0 <= i < j < |d| ==> d[i].key != d[j].key
  }

  /** Position of the entry named `k`, or `|d|` when there is none. */
  function Find<V>(d: seq<Entry<V>>, k: string): (i: nat)
    ensures i <= |d|
    ensures i < |d| ==> d[i].key == k
    ensures forall j :: 0 <= j < i ==> d[j].key != k
    decreases |d|
  {
    if |d| == 0 then 0
    else if d[0].key == k then 0
    else 1 + Find(d[1..], k)
  }

  /** `Find` is the first position holding `k`, or `|d|`. */
  lemma FindIsFirst<V>(d: seq<Entry<V>>, k: string, i: nat)
    requires i <= |d|
    requires i < |d| ==> d[i].key == k
    requires forall j :: 0 <= j < i ==> d[j].key != k
    ensures Find(d, k) == i
  {
  }

  /** Lookup by name. */
  function Get<V>(d: seq<Entry<V>>, k: string): (r: Option<V>)
    ensures r.Some? <==> k in Keys(d)
    ensures r.Some? ==> exists i :: 0 <= i < |d| && d[i] == Entry(k, r.value)
  {
    var i := Find(d, k);
    if i < |d| then Some(d[i].value) else None
  }

  /** `OrderedDict.__setitem__`: an existing name keeps its position and
      takes the new value; a new name goes to the end. */
  function Put<V>(d: seq<Entry<V>>, k: string, v: V): (r: seq<Entry<V>>)
    requires UniqueKeys(d)
    ensures UniqueKeys(r)
    ensures Get(r, k) == Some(v)
    ensures forall k' :: k' != k ==> Get(r, k') == Get(d, k')
    ensures k in Keys(d) ==> Keys(r) == Keys(d)
    ensures k !in Keys(d) ==> r == d + [Entry(k, v)]
  {
    var i := Find(d, k);
    if i < |d| then
      var r := d[i := Entry(k, v)];
      assert Keys(r) == Keys(d);
      forall k' | k' != k
        ensures Get(r, k') == Get(d, k')
      {
        var j := Find(d, k');
        assert j < |d| ==> j != i;
        assert Find(r, k') == j;
      }
      r
    else
      var r := d + [Entry(k, v)];
      FindIsFirst(r, k, |d|);
      forall k' | k' != k
        ensures Get(r, k') == Get(d, k')
      {
        var j := Find(d, k');
        if j < |d| {
          FindIsFirst(r, k', j);
        } else {
          FindIsFirst(r, k', |r|);
        }
      }
      r
  }

  /** Python's `k[:7]`: the first seven characters, or all of a shorter key. */
  function Head(k: string): string {
    if |k| < 7 then k else k[..7]
  }

  /** The name a checkpoint key is loaded under (lines 137-141): always a
      suffix of the key, the whole key or what follows its first seven
      characters. */
  function StripKey(k: string): (name: string)
    ensures IsSuffix(name, k)
    ensures |name| == |k| || |name| == |k| - 7
  {
    if Head(k) == DataParallelPrefix then k[7..] else k
  }

  /** A key that starts with the prefix loses it; any other key is kept. */
  lemma StripKeyMeaning(k: string)
    ensures IsPrefix(DataParallelPrefix, k) ==> DataParallelPrefix + StripKey(k) == k
    ensures !IsPrefix(DataParallelPrefix, k) ==> StripKey(k) == k
  {
    if IsPrefix(DataParallelPrefix, k) {
      assert k == k[..7] + k[7..];
    }
  }

  /** The copy loop of lines 135-142, as a left fold over the checkpoint's
      entries in order. */
  function RenameKeys<V>(sd: seq<Entry<V>>): (r: seq<Entry<V>>)
    ensures UniqueKeys(r)
    decreases |sd|
  {
    if |sd| == 0 then []
    else
      var last := sd[|sd| - 1];
      Put(RenameKeys(sd[..|sd| - 1]), StripKey(last.key), last.value)
  }

  /** Reference meaning of the renamed dictionary: the value stored under
      `name` is that of the LAST checkpoint entry whose key strips to `name`. */
  function LastValue<V>(sd: seq<Entry<V>>, name: string): Option<V>
    decreases |sd|
  {
    if |sd| == 0 then None
    else if StripKey(sd[|sd| - 1].key) == name then Some(sd[|sd| - 1].value)
    else LastValue(sd[..|sd| - 1], name)
  }

  /** Some checkpoint key strips to `name`. */
  predicate Produces<V>(sd: seq<Entry<V>>, name: string) {
    exists i :: 0 <= i < |sd| && StripKey(sd[i].key) == name
  }

  /** A key produces `name` when an earlier key does or the last one does. */
  lemma ProducesSnoc<V>(init: seq<Entry<V>>, last: Entry<V>, name: string)
    ensures Produces(init + [last], name) <==> Produces(init, name) || StripKey(last.key) == name
  {
    var sd := init + [last];
    if Produces(init, name) {
      var i :| 0 <= i < |init| && StripKey(init[i].key) == name;
      assert sd[i] == init[i];
    } else if StripKey(last.key) == name {
      assert sd[|init|] == last;
    } else {
      forall i | 0 <= i < |sd|
        ensures StripKey(sd[i].key) != name
      {
        if i < |init| {
          assert sd[i] == init[i];
        } else {
          assert sd[i] == last;
        }
      }
    }
  }

  lemma {:induction false} LastValueSome<V>(sd: seq<Entry<V>>, name: string)
    ensures LastValue(sd, name).Some? <==> Produces(sd, name)
    decreases |sd|
  {
    if |sd| > 0 {
      ProducesLast(sd, name);
      LastValueSome(sd[..|sd| - 1], name);
    }
  }

  /** `ProducesSnoc` for a non-empty checkpoint split at its last entry. */
  lemma ProducesLast<V>(sd: seq<Entry<V>>, name: string)
    requires |sd| > 0
    ensures Produces(sd, name) <==> Produces(sd[..|sd| - 1], name) || StripKey(sd[|sd| - 1].key) == name
  {
    assert sd == sd[..|sd| - 1] + [sd[|sd| - 1]];
    ProducesSnoc(sd[..|sd| - 1], sd[|sd| - 1], name);
  }

  /** Every name of the renamed dictionary comes from some checkpoint key,
      every checkpoint key contributes its stripped name, and each name
      holds the value of the last entry that produced it. */
  lemma {:induction false} RenameKeysContents<V>(sd: seq<Entry<V>>)
    ensures forall name :: Get(RenameKeys(sd), name) == LastValue(sd, name)
    ensures forall name :: name in Keys(RenameKeys(sd)) <==> Produces(sd, name)
    decreases |sd|
  {
    if |sd| > 0 {
      var init := sd[..|sd| - 1];
      var last := sd[|sd| - 1];
      var prev := RenameKeys(init);
      RenameKeysContents(init);
      assert RenameKeys(sd) == Put(prev, StripKey(last.key), last.value);
      forall name
        ensures Get(RenameKeys(sd), name) == LastValue(sd, name)
      {
        if StripKey(last.key) != name {
          assert Get(RenameKeys(sd), name) == Get(prev, name);
        }
      }
    }
    forall name
      ensures name in Keys(RenameKeys(sd)) <==> Produces(sd, name)
    {
      LastValueSome(sd, name);
    }
  }

  /** Every entry with its key stripped; no merging. */
  function StripEach<V>(sd: seq<Entry<V>>): (r: seq<Entry<V>>)
    ensures |r| == |sd|
    ensures forall i :: 0 <= i < |sd| ==> r[i] == Entry(StripKey(sd[i].key), sd[i].value)
  {
    seq(|sd|, i requires 0 <= i < |sd| => Entry(StripKey(sd[i].key), sd[i].value))
  }

  /** No two checkpoint keys strip to the same name. */
  predicate NoCollisions<V>(sd: seq<Entry<V>>) {
    forall i, j :: 0 <= i < j < |sd| ==> StripKey(sd[i].key) != StripKey(sd[j].key)
  }

  /** Dropping the last entry keeps a checkpoint free of collisions, and
      the dropped entry's name is new to what remains. */
  lemma NoCollisionsInit<V>(sd: seq<Entry<V>>)
    requires |sd| > 0 && NoCollisions(sd)
    ensures NoCollisions(sd[..|sd| - 1])
    ensures StripKey(sd[|sd| - 1].key) !in Keys(StripEach(sd[..|sd| - 1]))
  {
    var n := |sd| - 1;
    var init := sd[..n];
    forall i, j | 0 <= i < j < |init|
      ensures StripKey(init[i].key) != StripKey(init[j].key)
    {
      assert init[i] == sd[i] && init[j] == sd[j];
    }
    var ks := Keys(StripEach(init));
    forall i | 0 <= i < |init|
      ensures ks[i] != StripKey(sd[n].key)
    {
      assert init[i] == sd[i];
    }
  }

  /** `StripEach` works entry by entry. */
  lemma StripEachSnoc<V>(sd: seq<Entry<V>>)
    requires |sd| > 0
    ensures StripEach(sd) == StripEach(sd[..|sd| - 1]) + [Entry(StripKey(sd[|sd| - 1].key), sd[|sd| - 1].value)]
  {
    var n := |sd| - 1;
    var init := sd[..n];
    var r := StripEach(init) + [Entry(StripKey(sd[n].key), sd[n].value)];
    forall i | 0 <= i < |sd|
      ensures r[i] == StripEach(sd)[i]
    {
      if i < n {
        assert init[i] == sd[i];
      }
    }
  }

  /** Without collisions the renamed dictionary keeps every entry, in the
      checkpoint's order, with its value, under its stripped name. */
  lemma {:induction false} RenameKeysNoCollisions<V>(sd: seq<Entry<V>>)
    requires NoCollisions(sd)
    ensures RenameKeys(sd) == StripEach(sd)
    decreases |sd|
  {
    if |sd| > 0 {
      NoCollisionsInit(sd);
      RenameKeysNoCollisions(sd[..|sd| - 1]);
      StripEachSnoc(sd);
    }
  }

  /** What a data-parallel wrapper saves: every key prefixed once. */
  function AddPrefix<V>(d: seq<Entry<V>>): (r: seq<Entry<V>>)
    ensures |r| == |d|
    ensures forall i :: 0 <= i < |d| ==> r[i] == Entry(DataParallelPrefix + d[i].key, d[i].value)
  {
    seq(|d|, i requires 0 <= i < |d| => Entry(DataParallelPrefix + d[i].key, d[i].value))
  }

  /** A prefixed key loses exactly the prefix, once:
      `module.module.x` loads as `module.x`. */
  lemma StripAddedPrefix(k: string)
    ensures StripKey(DataParallelPrefix + k) == k
    ensures StripKey(DataParallelPrefix + DataParallelPrefix + k) == DataParallelPrefix + k
  {
    assert (DataParallelPrefix + DataParallelPrefix + k)[..7] == DataParallelPrefix;
  }

  /** A key that does not start with the prefix, short keys included, loads
      under its own name. */
  lemma StripKeepsOthers(k: string)
    requires |k| < 7 || k[..7] != DataParallelPrefix
    ensures StripKey(k) == k
  {
  }

  /** Checkpoint round trip: a state dictionary saved through the
      data-parallel wrapper loads back to the same names, order and values. */
  lemma {:induction false} RoundTrip<V>(d: seq<Entry<V>>)
    requires UniqueKeys(d)
    ensures RenameKeys(AddPrefix(d)) == d
  {
    var p := AddPrefix(d);
    forall i | 0 <= i < |p|
      ensures StripKey(p[i].key) == d[i].key
    {
      StripAddedPrefix(d[i].key);
    }
    RenameKeysNoCollisions(p);
  }

  /** A checkpoint without prefixed keys loads unchanged. */
  lemma {:induction false} UnprefixedUnchanged<V>(d: seq<Entry<V>>)
    requires UniqueKeys(d)
    requires forall i :: 0 <= i < |d| ==> !IsPrefix(DataParallelPrefix, d[i].key)
    ensures RenameKeys(d) == d
  {
    forall i | 0 <= i < |d|
      ensures StripKey(d[i].key) == d[i].key
    {
      StripKeyMeaning(d[i].key);
    }
    assert NoCollisions(d);
    RenameKeysNoCollisions(d);
    assert StripEach(d) == d;
  }
}
