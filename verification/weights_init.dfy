/** Parameter-name dispatch of `weights_init` (train_RFB_imprinted.py,
    lines 107-115) and the batch-norm scale reset before imprinting
    (lines 213-216). Only the decision taken for each name is modelled;
    the initialisers themselves act on tensors. */
module WeightsInit {
  import opened Strings

  /** What `weights_init` does to one state-dictionary entry. */
  datatype InitAction =
    | KaimingNormalFanOut   // `init.kaiming_normal_(…, mode='fan_out')`
    | FillOnes              // `[...] = 1`
    | FillZeros             // `[...] = 0`

  /** Python's `key.split('.')[-1]`. */
  function LastComponent(key: string): string {
    LastPiece(key, '.')
  }

  /** The actions applied to the entry named `key`, in the order applied. */
  function Dispatch(key: string): (acts: seq<InitAction>)
    // a weight of a `conv` entry is kaiming-initialised, and first
    ensures KaimingNormalFanOut in acts <==> LastComponent(key) == "weight" && Contains(key, "conv")
    ensures KaimingNormalFanOut in acts ==> acts[0] == KaimingNormalFanOut
    // a weight of a `bn` entry is set to one, last
    ensures FillOnes in acts <==> LastComponent(key) == "weight" && Contains(key, "bn")
    ensures FillOnes in acts ==> acts[|acts| - 1] == FillOnes
    // a bias is zeroed, and nothing else happens to it
    ensures FillZeros in acts <==> LastComponent(key) == "bias"
    ensures FillZeros in acts ==> acts == [FillZeros]
    // any other entry is left alone
    ensures LastComponent(key) != "weight" && LastComponent(key) != "bias" ==> acts == []
    ensures |acts| <= 2
    // no action is applied twice
    ensures forall a :: multiset(acts)[a] <= 1
  {
    var last := LastComponent(key);
    if last == "weight" then
      (if Contains(key, "conv") then [KaimingNormalFanOut] else [])
      + (if Contains(key, "bn") then [FillOnes] else [])
    else if last == "bias" then [FillZeros]
    else []
  }

  /** `weights_init(m)` over the names of `m.state_dict()`, in order. */
  function InitAll(keys: seq<string>): (plan: seq<(string, seq<InitAction>)>)
    ensures |plan| == |keys|
    ensures forall i :: 0 <= i < |keys| ==> plan[i].0 == keys[i] && plan[i].1 == Dispatch(keys[i])
  {
    seq(|keys|, i requires 0 <= i < |keys| => (keys[i], Dispatch(keys[i])))
  }

  /** A name ending in `.weight` whose text mentions `conv` is
      kaiming-initialised, wherever `conv` occurs in it. */
  lemma {:induction false} ConvWeightIsKaiming(key: string, i: int)
    requires OccursAt(key, "conv", i)
    requires LastComponent(key) == "weight"
    ensures |Dispatch(key)| > 0 && Dispatch(key)[0] == KaimingNormalFanOut
  {
    ContainsIffOccurs(key, "conv");
  }

  /** The last component of `prefix.last` is `last`, whatever dots
      `prefix` holds: `a.conv.weight` dispatches on `weight`. */
  lemma LastComponentOfDotted(prefix: string, last: string)
    requires '.' !in last
    ensures LastComponent(prefix + "." + last) == last
  {
    var key := prefix + "." + last;
    var c := LastComponent(key);
    assert key[|key| - |last|..] == last;
    assert key[|key| - |last| - 1] == '.';
  }

  /** The keys of a batch-norm module whose entries are set to one before
      imprinting: those whose name contains `weight` (lines 213-216). */
  function ForcedToOne(keys: seq<string>): (r: seq<string>)
    ensures forall k :: k in r <==> k in keys && Contains(k, "weight")
    ensures |r| <= |keys|
    decreases |keys|
  {
    if |keys| == 0 then []
    else
      (if Contains(keys[0], "weight") then [keys[0]] else []) + ForcedToOne(keys[1..])
  }
}
