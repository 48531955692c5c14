/** The epoch bookkeeping of the fine-tuning loop
    (train_RFB_imprinted.py, lines 301-387). Iterations run over
    `[start_iter, max_epoch * epoch_size)`; every iteration divisible by
    `epoch_size` is an epoch boundary, where the epoch just finished is
    reported with its accumulated losses and, when even, checkpointed
    (not at the first boundary, which only opens the loop), the loss
    accumulators are reset and the epoch counter advances. One final
    checkpoint follows the loop. Forward/backward passes, the optimiser
    and the learning-rate schedule are not modelled: the losses of each
    iteration are an input. */
module Schedule {

  /** The three loss terms of one iteration, or their running sums. */
  datatype Losses = Losses(loc: real, conf: real, obj: real)

  const NoLoss := Losses(0.0, 0.0, 0.0)

  function Add(a: Losses, b: Losses): Losses {
    Losses(a.loc + b.loc, a.conf + b.conf, a.obj + b.obj)
  }

  /** Sum of the losses of iterations `lo .. hi - 1`. */
  function Total(lossAt: int -> Losses, lo: int, hi: int): Losses
    decreases hi - lo
  {
    if hi <= lo then NoLoss else Add(Total(lossAt, lo, hi - 1), lossAt(hi - 1))
  }

  /** The observable effects of the loop. */
  datatype Event =
    | EpochEnd(epoch: int, totals: Losses)   // the "Epoch … Finished!" report, built from the accumulators
    | Save(epoch: int)                       // `torch.save` of an even epoch
    | FinalSave                              // the save after the loop

  /** `start_iter` (lines 311-315). */
  function StartIter(resume: int, epochSize: nat): int {
    if resume > 0 then resume * epochSize else 0
  }

  /** Number of epoch boundaries the loop meets. */
  function Boundaries(resume: int, maxEpoch: int, epochSize: nat): nat {
    var s := if resume > 0 then resume else 0;
    if epochSize == 0 || maxEpoch <= s then 0 else maxEpoch - s
  }

  /** Iteration at which boundary `j` falls: `start + j * epochSize`. */
  function Mark(start: int, epochSize: nat, j: nat): int {
    if j == 0 then start else Mark(start, epochSize, j - 1) + epochSize
  }

  lemma {:induction false} MarkIsProduct(start: int, epochSize: nat, j: nat)
    ensures Mark(start, epochSize, j) == start + j * epochSize
  {
    if j > 0 {
      MarkIsProduct(start, epochSize, j - 1);
      assert j * epochSize == (j - 1) * epochSize + epochSize;
    }
  }

  /** What boundary `j` emits: nothing at the first; otherwise the report
      of epoch `resume + j` with exactly that epoch's losses, and its
      checkpoint when it is even. */
  function AtBoundary(resume: int, start: int, epochSize: nat, lossAt: int -> Losses, j: nat): seq<Event> {
    if j == 0 then []
    else
      var e := resume + j;
      [EpochEnd(e, Total(lossAt, Mark(start, epochSize, j - 1), Mark(start, epochSize, j)))]
      + (if e % 2 == 0 then [Save(e)] else [])
  }

  /** Everything emitted at boundaries `0 .. k - 1`. */
  function UpTo(resume: int, start: int, epochSize: nat, lossAt: int -> Losses, k: nat): seq<Event> {
    if k == 0 then []
    else UpTo(resume, start, epochSize, lossAt, k - 1) + AtBoundary(resume, start, epochSize, lossAt, k - 1)
  }

  /** The reference run: every boundary in turn, then the final save. */
  function Expected(resume: int, maxEpoch: int, epochSize: nat, lossAt: int -> Losses): seq<Event> {
    UpTo(resume, StartIter(resume, epochSize), epochSize, lossAt, Boundaries(resume, maxEpoch, epochSize))
    + [FinalSave]
  }

  lemma {:induction false} MulAtLeast(k: int, es: int)
    requires 1 <= k && 0 < es
    ensures k * es >= es
    decreases k
  {
    if k > 1 {
      MulAtLeast(k - 1, es);
      assert k * es == (k - 1) * es + es;
    }
  }

  lemma MulSign(x: int, es: int)
    requires 0 < es
    ensures x > 0 ==> x * es >= es
    ensures x < 0 ==> x * es <= -es
  {
    if x > 0 {
      MulAtLeast(x, es);
    } else if x < 0 {
      assert (-x) * es == -(x * es);
      MulAtLeast(-x, es);
    }
  }

  /** Euclidean division is unique. */
  lemma DivModUnique(x: int, es: int, d: int, m: int)
    requires 0 < es && 0 <= m < es && x == d * es + m
    ensures x % es == m
  {
    var q, r := x / es, x % es;
    assert x == q * es + r;
    assert (d - q) * es == r - m;
    MulSign(d - q, es);
  }

  /** Inside epoch `k` (iterations after boundary `k - 1`, up to and
      including the position of boundary `k`), only boundary `k` itself is
      divisible by the epoch size. */
  lemma BoundaryTest(s: nat, k: nat, es: nat, it: int)
    requires 0 < es && 0 < k
    requires Mark(s * es, es, k - 1) < it <= Mark(s * es, es, k)
    ensures it % es == 0 <==> it == Mark(s * es, es, k)
  {
    MarkIsProduct(s * es, es, k - 1);
    MarkIsProduct(s * es, es, k);
    var d := s + k - 1;
    assert d * es == s * es + (k - 1) * es;
    var m := it - d * es;
    if m < es {
      DivModUnique(it, es, d, m);
    } else {
      assert it == (d + 1) * es;
      DivModUnique(it, es, d + 1, 0);
    }
  }

  /** The loop starts on a boundary. */
  lemma StartIsBoundary(s: nat, es: nat)
    requires 0 < es
    ensures s * es % es == 0
  {
    DivModUnique(s * es, es, s, 0);
  }

  /** When the loop stops, it has met every boundary. */
  lemma LoopExit(s: nat, k: nat, es: nat, maxEpoch: int)
    requires 0 < es
    requires 0 < k ==> Mark(s * es, es, k - 1) < maxEpoch * es <= Mark(s * es, es, k)
    requires k == 0 ==> maxEpoch * es <= s * es
    ensures k == (if maxEpoch <= s then 0 else maxEpoch - s)
  {
    if k > 0 {
      MarkIsProduct(s * es, es, k - 1);
      MarkIsProduct(s * es, es, k);
      MulSign(maxEpoch - (s + k - 1), es);
      MulSign(maxEpoch - (s + k), es);
      assert (maxEpoch - (s + k - 1)) * es == maxEpoch * es - (s * es + (k - 1) * es);
      assert (maxEpoch - (s + k)) * es == maxEpoch * es - (s * es + k * es);
    } else {
      MulSign(maxEpoch - s, es);
      assert (maxEpoch - s) * es == maxEpoch * es - s * es;
    }
  }

  /** What the loop body emits at boundary `k`, given the accumulated losses. */
  function Emitted(resume: int, k: nat, acc: Losses): seq<Event> {
    if k == 0 then []
    else [EpochEnd(resume + k, acc)] + (if (resume + k) % 2 == 0 then [Save(resume + k)] else [])
  }

  /** The loop's state before `iteration`, once `k` boundaries were met:
      `first_or_not` is set only before the first boundary, the epoch
      counter has advanced `k` times, the effects so far are those of the
      first `k` boundaries, and the accumulators hold the losses since the
      last boundary. */
  predicate LoopState(resume: int, start: int, epochSize: nat, lossAt: int -> Losses,
                       k: nat, iteration: int, first: bool, epoch: int, events: seq<Event>, acc: Losses)
  {
    && start <= iteration
    && (first <==> k == 0)
    && (k == 0 <==> iteration == start)
    && (k > 0 ==> Mark(start, epochSize, k - 1) < iteration <= Mark(start, epochSize, k))
    && epoch == resume + k
    && events == UpTo(resume, start, epochSize, lossAt, k)
    && (k > 0 ==> acc == Total(lossAt, Mark(start, epochSize, k - 1), iteration))
  }

  /** One pass of the loop body keeps the state: at a boundary it emits
      the reference's events for boundary `k`, resets the accumulators and
      advances the counter; elsewhere it only accumulates. */
  lemma Step(resume: int, s: nat, epochSize: nat, lossAt: int -> Losses,
             k: nat, iteration: int, first: bool, epoch: int, events: seq<Event>, acc: Losses,
             k': nat, epoch': int, events': seq<Event>, acc': Losses)
    requires 0 < epochSize
    requires LoopState(resume, s * epochSize, epochSize, lossAt, k, iteration, first, epoch, events, acc)
    requires iteration % epochSize == 0 ==>
      k' == k + 1 && epoch' == epoch + 1 && events' == events + Emitted(resume, k, acc)
      && acc' == Add(NoLoss, lossAt(iteration))
    requires iteration % epochSize != 0 ==>
      k' == k && epoch' == epoch && events' == events && acc' == Add(acc, lossAt(iteration))
    ensures LoopState(resume, s * epochSize, epochSize, lossAt, k', iteration + 1, false, epoch', events', acc')
  {
    var start := s * epochSize;
    if k == 0 {
      StartIsBoundary(s, epochSize);
    } else {
      BoundaryTest(s, k, epochSize, iteration);
    }
    if iteration % epochSize == 0 {
      assert iteration == Mark(start, epochSize, k);
      assert Total(lossAt, iteration, iteration + 1) == Add(NoLoss, lossAt(iteration));
    }
  }

  /** The boundary branch of the loop body (lines 323-336): unless this
      is the boundary that opens the loop, report the finished epoch and
      save it when it is even. */
  method CloseEpoch(resume: int, ghost k: nat, first: bool, epoch: int, acc: Losses, events: seq<Event>)
    returns (events': seq<Event>)
    requires first <==> k == 0
    requires epoch == resume + k
    ensures events' == events + Emitted(resume, k, acc)
  {
    events' := events;
    if !first {
      events' := events' + [EpochEnd(epoch, acc)];
      if epoch % 2 == 0 {
        events' := events' + [Save(epoch)];
      }
    }
  }

  /** One pass of the loop body: the boundary branch, then the losses of
      this iteration join the accumulators. */
  method Iterate(resume: int, ghost s: nat, epochSize: nat, lossAt: int -> Losses,
                 iteration: int, first: bool, epoch: int, acc: Losses, events: seq<Event>, ghost k: nat)
    returns (first': bool, epoch': int, acc': Losses, events': seq<Event>, ghost k': nat)
    requires 0 < epochSize
    requires LoopState(resume, s * epochSize, epochSize, lossAt, k, iteration, first, epoch, events, acc)
    ensures LoopState(resume, s * epochSize, epochSize, lossAt, k', iteration + 1, first', epoch', events', acc')
    // after any pass the loop is past its first iteration ...
    ensures !first'
    // ... the counter advances exactly at a boundary, and only a boundary has effects
    ensures iteration % epochSize == 0 <==> epoch' == epoch + 1
    ensures iteration % epochSize != 0 ==> epoch' == epoch && events' == events
    ensures events'[..|events|] == events && |events'| <= |events| + 2
  {
    epoch', acc', events', k' := epoch, acc, events, k;
    if iteration % epochSize == 0 {
      events' := CloseEpoch(resume, k, first, epoch, acc, events);
      acc' := NoLoss;
      epoch' := epoch + 1;
      k' := k + 1;
    }
    acc' := Add(acc', lossAt(iteration));
    first' := false;
    Step(resume, s, epochSize, lossAt, k, iteration, first, epoch, events, acc, k', epoch', events', acc');
  }

  /** The loop of lines 301-387, one iteration at a time. */
  method FineTune(resume: int, maxEpoch: int, epochSize: nat, lossAt: int -> Losses)
    returns (epoch: int, events: seq<Event>)
    // the counter advances once per boundary ...
    ensures epoch == resume + Boundaries(resume, maxEpoch, epochSize)
    // ... so a normal run ends on `max_epoch`
    ensures 0 <= resume <= maxEpoch && 0 < epochSize ==> epoch == maxEpoch
    // the effects are exactly those of the reference run
    ensures events == Expected(resume, maxEpoch, epochSize, lossAt)
  {
    epoch := resume;
    var start := StartIter(resume, epochSize);
    var maxIter := maxEpoch * epochSize;
    ghost var s: nat := if resume > 0 then resume else 0;
    assert start == s * epochSize;
    var first := true;
    var acc := NoLoss;
    events := [];
    ghost var k: nat := 0;
    var iteration := start;
    while iteration < maxIter
      invariant maxIter > start ==> iteration <= maxIter
      invariant maxIter <= start ==> iteration == start
      invariant LoopState(resume, start, epochSize, lossAt, k, iteration, first, epoch, events, acc)
      decreases maxIter - iteration
    {
      first, epoch, acc, events, k := Iterate(resume, s, epochSize, lossAt, iteration, first, epoch, acc, events, k);
      iteration := iteration + 1;
    }
    if epochSize > 0 {
      LoopExit(s, k, epochSize, maxEpoch);
    }
    events := events + [FinalSave];
  }

  /** An epoch report carries the losses of that epoch alone. */
  ghost predicate CoversOneEpoch(resume: int, start: int, epochSize: nat, lossAt: int -> Losses, x: Event)
  {
    x.EpochEnd? ==>
      resume < x.epoch
      && x.totals == Total(lossAt, Mark(start, epochSize, x.epoch - resume - 1), Mark(start, epochSize, x.epoch - resume))
  }

  /** What holds of every event among the first `k` boundaries' effects:
      it is a report or a save of an epoch strictly between the resumed
      epoch and `resume + k`, saves are of even epochs, and reports cover
      one epoch. */
  ghost predicate Sound(resume: int, start: int, epochSize: nat, lossAt: int -> Losses, k: nat, x: Event)
  {
    && (x.EpochEnd? || x.Save?)
    && resume < x.epoch < resume + k
    && (x.Save? ==> x.epoch % 2 == 0)
    && CoversOneEpoch(resume, start, epochSize, lossAt, x)
  }

  /** The events of boundary `j`. */
  lemma AtBoundarySound(resume: int, start: int, epochSize: nat, lossAt: int -> Losses, j: nat, i: nat)
    requires i < |AtBoundary(resume, start, epochSize, lossAt, j)|
    ensures 1 < j + 1 && Sound(resume, start, epochSize, lossAt, j + 1, AtBoundary(resume, start, epochSize, lossAt, j)[i])
  {
  }

  /** Every event among the first `k` boundaries' effects is sound. */
  lemma {:induction false} UpToSound(resume: int, start: int, epochSize: nat, lossAt: int -> Losses, k: nat, i: nat)
    requires i < |UpTo(resume, start, epochSize, lossAt, k)|
    ensures Sound(resume, start, epochSize, lossAt, k, UpTo(resume, start, epochSize, lossAt, k)[i])
  {
    var u := UpTo(resume, start, epochSize, lossAt, k - 1);
    var a := AtBoundary(resume, start, epochSize, lossAt, k - 1);
    assert UpTo(resume, start, epochSize, lossAt, k) == u + a;
    if i < |u| {
      UpToSound(resume, start, epochSize, lossAt, k - 1, i);
    } else {
      AtBoundarySound(resume, start, epochSize, lossAt, k - 1, i - |u|);
    }
  }

  /** The reference run saves only even epochs, never the epoch the loop
      resumed at, never the last epoch before the final save, and ends
      with exactly one final save. */
  lemma {:induction false} CheckpointPolicy(resume: int, start: int, epochSize: nat, lossAt: int -> Losses, k: nat)
    ensures FinalSave !in UpTo(resume, start, epochSize, lossAt, k)
    ensures forall e :: Save(e) in UpTo(resume, start, epochSize, lossAt, k) ==>
      e % 2 == 0 && resume < e < resume + k
    ensures forall e, t :: EpochEnd(e, t) in UpTo(resume, start, epochSize, lossAt, k) ==>
      resume < e < resume + k
  {
    var evs := UpTo(resume, start, epochSize, lossAt, k);
    forall i | 0 <= i < |evs|
      ensures Sound(resume, start, epochSize, lossAt, k, evs[i])
    {
      UpToSound(resume, start, epochSize, lossAt, k, i);
    }
  }

  /** At every boundary but the first, the report carries the losses of
      the epoch just completed and nothing else: the accumulators were
      reset at the previous boundary. */
  lemma {:induction false} ReportsCoverOneEpoch(resume: int, start: int, epochSize: nat, lossAt: int -> Losses, k: nat, e: int, t: Losses)
    requires EpochEnd(e, t) in UpTo(resume, start, epochSize, lossAt, k)
    ensures resume < e
    ensures t == Total(lossAt, Mark(start, epochSize, e - resume - 1), Mark(start, epochSize, e - resume))
  {
    var evs := UpTo(resume, start, epochSize, lossAt, k);
    var i :| 0 <= i < |evs| && evs[i] == EpochEnd(e, t);
    UpToSound(resume, start, epochSize, lossAt, k, i);
  }
}
