/** The loop prefetcher (include/svs/lib/prefetch.h): each call prefetches the next valid
    items, several at a time until it is `lookahead` items ahead. */
module Prefetching {
  import opened Arithmetic

  datatype Parameters = Parameters(lookahead: nat, step: nat)

  function SelectImax(p: Parameters, imax: nat): nat {
    if p.lookahead == 0 || p.step == 0 then 0 else imax
  }

  /** Position, slack, and the items the operation was applied to so far. */
  datatype State = State(i: nat, slack: nat, ops: seq<nat>)

  function Initial(p: Parameters, imax: nat): State {
    State(0, Min(SelectImax(p, imax), p.lookahead), [])
  }

  /** The next `k` valid items from `i` on, as far as there are any below `imax`. */
  function Next(pred: nat -> bool, i: nat, imax: nat, k: nat): (items: seq<nat>)
    ensures |items| <= k
    decreases imax - i
  {
    if k == 0 || imax <= i then []
    else if pred(i) then [i] + Next(pred, i + 1, imax, k - 1)
    else Next(pred, i + 1, imax, k)
  }

  /** Where a walk collecting `k` valid items from `i` on ends. */
  function Stop(pred: nat -> bool, i: nat, imax: nat, k: nat): (j: nat)
    requires i <= imax
    ensures i <= j <= imax
    decreases imax - i
  {
    if k == 0 || i == imax then i else Stop(pred, i + 1, imax, if pred(i) then k - 1 else k)
  }

  lemma OneMoreItem(pred: nat -> bool, i: nat, imax: nat, k: nat)
    requires i < imax && k > 0 && pred(i)
    ensures Next(pred, i, imax, k) == [i] + Next(pred, i + 1, imax, k - 1)
    ensures Stop(pred, i, imax, k) == Stop(pred, i + 1, imax, k - 1)
  {
  }

  lemma NoMoreItems(pred: nat -> bool, i: nat, imax: nat, k: nat)
    requires i == imax || (i < imax && k == 0)
    ensures Next(pred, i, imax, k) == [] && Stop(pred, i, imax, k) == i
  {
  }

  function ItemsToPrefetch(step: nat, slack: nat): nat {
    if slack == 0 then 1 else if step == 1 then slack + 1 else Min(slack + 1, step)
  }

  /** One call. Slack shrinks by the items prefetched beyond the first, except on the early
      return of a walk that runs out of items while skipping. */
  function Advance(step: nat, imax: nat, pred: nat -> bool, s: State): (s': State)
    requires s.i <= imax
    ensures s'.i <= imax
  {
    var items := ItemsToPrefetch(step, s.slack);
    var got := Next(pred, s.i, imax, items);
    var ranOut := |got| < items && !(imax > 0 && pred(imax - 1));
    State(Stop(pred, s.i, imax, items),
      if s.i == imax || s.slack == 0 || ranOut || got == [] then s.slack else s.slack - (|got| - 1),
      s.ops + got)
  }

  class Prefetcher {
    const step: nat
    const imax: nat
    const pred: nat -> bool
    var i: nat
    var slack: nat
    /** Every index the prefetch operation was called with, in order. */
    var ops: seq<nat>

    ghost function Now(): State
      reads this
    {
      State(i, slack, ops)
    }

    constructor (p: Parameters, imax: nat, pred: nat -> bool)
      ensures Now() == Initial(p, imax) && step == p.step && this.imax == SelectImax(p, imax) && this.pred == pred
      ensures i <= this.imax
    {
      this.step, this.imax, this.pred := p.step, SelectImax(p, imax), pred;
      i, slack, ops := 0, Min(SelectImax(p, imax), p.lookahead), [];
    }

    predicate Done()
      reads this
    {
      i == imax
    }

    /** Apply the operation to the current item and step past it. */
    method Op()
      requires i < imax
      modifies this`i, this`ops
      ensures i == old(i) + 1 && ops == old(ops) + [old(i)]
    {
      ops := ops + [i];
      i := i + 1;
    }

    /** Walk forward to a valid item; false when there is none left. */
    method Skip(ghost k: nat) returns (found: bool)
      requires i < imax && k > 0
      modifies this`i
      ensures old(i) <= i <= imax && (found <==> i < imax)
      ensures found ==> pred(i)
      ensures !found ==> !pred(imax - 1)
      ensures Next(pred, i, imax, k) == Next(pred, old(i), imax, k)
      ensures Stop(pred, i, imax, k) == Stop(pred, old(i), imax, k)
    {
      while !pred(i)
        invariant old(i) <= i < imax
        invariant Next(pred, i, imax, k) == Next(pred, old(i), imax, k)
        invariant Stop(pred, i, imax, k) == Stop(pred, old(i), imax, k)
        decreases imax - i
      {
        i := i + 1;
        if Done() {
          return false;
        }
      }
      return true;
    }

    /** `operator()`. */
    method Call()
      requires i <= imax && (step == 0 ==> imax == 0)
      modifies this`i, this`slack, this`ops
      ensures i <= imax
      ensures Now() == Advance(step, imax, pred, old(Now()))
    {
      hide Next, Stop;
      if Done() {
        NoMoreItems(pred, i, imax, ItemsToPrefetch(step, slack));
        return;
      }
      if slack == 0 {
        var found := Skip(1);
        if found {
          OneMoreItem(pred, i, imax, 1);
          Op();
          NoMoreItems(pred, i, imax, 0);
        } else {
          NoMoreItems(pred, i, imax, 1);
        }
        return;
      }
      var itemsToPrefetch := if step == 1 then slack + 1 else Min(slack + 1, step);
      var prefetched, ranOut := Ramp(itemsToPrefetch);
      if ranOut {
        return;
      }
      slack := slack - (prefetched - 1);
    }

    /** The loop of a call that prefetches several items; running out of them while skipping ends
        the call. */
    method Ramp(itemsToPrefetch: nat) returns (prefetched: nat, ranOut: bool)
      requires i < imax && itemsToPrefetch > 0
      modifies this`i, this`ops
      ensures i == Stop(pred, old(i), imax, itemsToPrefetch) <= imax
      ensures ops == old(ops) + Next(pred, old(i), imax, itemsToPrefetch)
      ensures prefetched == |Next(pred, old(i), imax, itemsToPrefetch)|
      ensures ranOut <==> prefetched < itemsToPrefetch && !pred(imax - 1)
      ensures !ranOut ==> prefetched > 0
    {
      hide Next, Stop;
      prefetched := 0;
      var more := true;
      while more
        invariant old(i) <= i <= imax && prefetched <= itemsToPrefetch
        invariant more <==> i < imax && prefetched != itemsToPrefetch
        invariant !more ==> prefetched > 0 && i > 0 && pred(i - 1)
        invariant |ops| == |old(ops)| + prefetched
        invariant ops + Next(pred, i, imax, itemsToPrefetch - prefetched)
               == old(ops) + Next(pred, old(i), imax, itemsToPrefetch)
        invariant Stop(pred, i, imax, itemsToPrefetch - prefetched) == Stop(pred, old(i), imax, itemsToPrefetch)
        decreases imax - i, more
      {
        var found := Skip(itemsToPrefetch - prefetched);
        if !found {
          NoMoreItems(pred, i, imax, itemsToPrefetch - prefetched);
          return prefetched, true;
        }
        OneMoreItem(pred, i, imax, itemsToPrefetch - prefetched);
        Op();
        prefetched := prefetched + 1;
        more := !Done() && prefetched != itemsToPrefetch;
      }
      NoMoreItems(pred, i, imax, itemsToPrefetch - prefetched);
      return prefetched, false;
    }
  }

  // ----- Whole runs

  function Run(p: Parameters, imax: nat, pred: nat -> bool, n: nat): (s: State)
    ensures s.i <= SelectImax(p, imax)
  {
    if n == 0 then Initial(p, imax)
    else Advance(p.step, SelectImax(p, imax), pred, Run(p, imax, pred, n - 1))
  }

  /** All valid items below `i`, in increasing order. */
  function ValidBelow(pred: nat -> bool, i: nat): seq<nat> {
    if i == 0 then [] else ValidBelow(pred, i - 1) + if pred(i - 1) then [i - 1] else []
  }

  lemma {:induction false} ValidBelowAre(pred: nat -> bool, i: nat)
    ensures forall x: nat :: x in ValidBelow(pred, i) <==> x < i && pred(x)
    ensures forall a, b :: 0 <= a < b < |ValidBelow(pred, i)| ==> ValidBelow(pred, i)[a] < ValidBelow(pred, i)[b]
  {
    if i > 0 {
      ValidBelowAre(pred, i - 1);
      var init := ValidBelow(pred, i - 1);
      forall a | 0 <= a < |init| ensures init[a] < i - 1 {
        assert init[a] in init;
      }
    }
  }

  lemma {:induction false} ValidBelowGrows(pred: nat -> bool, i: nat, j: nat)
    requires i <= j
    ensures ValidBelow(pred, i) <= ValidBelow(pred, j)
    ensures |ValidBelow(pred, j)| - |ValidBelow(pred, i)| <= j - i
  {
    if i < j {
      ValidBelowGrows(pred, i, j - 1);
    }
  }

  /** A walk takes the next valid items in order, as many as it wants and there are. */
  lemma {:induction false} WalkCollects(pred: nat -> bool, i: nat, imax: nat, k: nat)
    requires i <= imax
    ensures ValidBelow(pred, i) + Next(pred, i, imax, k) == ValidBelow(pred, Stop(pred, i, imax, k))
    ensures |Next(pred, i, imax, k)| < k ==> Stop(pred, i, imax, k) == imax
    decreases imax - i
  {
    if k > 0 && i < imax {
      WalkCollects(pred, i + 1, imax, if pred(i) then k - 1 else k);
      if pred(i) {
        assert ValidBelow(pred, i) + ([i] + Next(pred, i + 1, imax, k - 1))
            == ValidBelow(pred, i + 1) + Next(pred, i + 1, imax, k - 1);
      }
    }
  }

  /** How many items `n` calls prefetch when `v` are valid. A step of one stands for an
      unlimited ramp. */
  function Prefetched(p: Parameters, v: nat, n: nat): nat {
    if n == 0 then 0
    else if p.step == 1 then Min(v, n + p.lookahead)
    else Min(v, Min(n + p.lookahead, n * p.step))
  }

  ghost predicate RunInvariant(p: Parameters, imax: nat, pred: nat -> bool, n: nat, s: State) {
    && s.i <= imax
    && s.ops == ValidBelow(pred, s.i)
    && |s.ops| == Prefetched(p, |ValidBelow(pred, imax)|, n)
    && s.slack <= Min(imax, p.lookahead)
    && (|s.ops| < |ValidBelow(pred, imax)| ==> s.slack + |s.ops| == Min(imax, p.lookahead) + n)
  }

  lemma {:induction false} RunKeepsInvariant(p: Parameters, imax: nat, pred: nat -> bool, n: nat)
    requires p.lookahead > 0 && p.step > 0
    ensures RunInvariant(p, imax, pred, n, Run(p, imax, pred, n))
  {
    hide Advance;
    if n == 0 {
      ValidBelowGrows(pred, 0, imax);
    } else {
      RunKeepsInvariant(p, imax, pred, n - 1);
      CallKeepsInvariant(p, imax, pred, n - 1, Run(p, imax, pred, n - 1));
    }
  }

  lemma CallKeepsInvariant(p: Parameters, imax: nat, pred: nat -> bool, n: nat, s: State)
    requires p.lookahead > 0 && p.step > 0
    requires RunInvariant(p, imax, pred, n, s)
    ensures RunInvariant(p, imax, pred, n + 1, Advance(p.step, imax, pred, s))
  {
    var s' := Advance(p.step, imax, pred, s);
    var items := ItemsToPrefetch(p.step, s.slack);
    var got := Next(pred, s.i, imax, items);
    var v := |ValidBelow(pred, imax)|;
    WalkCollects(pred, s.i, imax, items);
    ValidBelowGrows(pred, s'.i, imax);
    ValidBelowGrows(pred, s.i, imax);
    ValidBelowGrows(pred, 0, imax);
    assert |s'.ops| == |s.ops| + |got| == Min(v, |s.ops| + items);
    CountOfOneMoreCall(p, imax, v, n, |s.ops|, s.slack);
  }

  lemma CountOfOneMoreCall(p: Parameters, imax: nat, v: nat, n: nat, count: nat, slack: nat)
    requires p.lookahead > 0 && p.step > 0 && v <= imax
    requires count == Prefetched(p, v, n)
    requires count < v ==> slack + count == Min(imax, p.lookahead) + n
    ensures Min(v, count + ItemsToPrefetch(p.step, slack)) == Prefetched(p, v, n + 1)
  {
    assert (n + 1) * p.step == n * p.step + p.step;
  }

  /** After `n` calls the operation has been applied to exactly the first valid items, in
      increasing order, once each. */
  lemma AfterCalls(p: Parameters, imax: nat, pred: nat -> bool, n: nat)
    requires p.lookahead > 0 && p.step > 0
    ensures var valid := ValidBelow(pred, imax);
      Prefetched(p, |valid|, n) <= |valid| && Run(p, imax, pred, n).ops == valid[..Prefetched(p, |valid|, n)]
  {
    RunKeepsInvariant(p, imax, pred, n);
    ValidBelowGrows(pred, Run(p, imax, pred, n).i, imax);
  }

  /** A zero lookahead or step disables prefetching. */
  lemma {:induction false} Disabled(p: Parameters, imax: nat, pred: nat -> bool, n: nat)
    requires p.lookahead == 0 || p.step == 0
    ensures Run(p, imax, pred, n).ops == []
  {
    if n > 0 {
      Disabled(p, imax, pred, n - 1);
    }
  }

  lemma SlackWithinLookahead(p: Parameters, imax: nat, pred: nat -> bool, n: nat)
    requires p.lookahead > 0 && p.step > 0
    ensures Run(p, imax, pred, n).slack <= p.lookahead
  {
    RunKeepsInvariant(p, imax, pred, n);
  }

  lemma SameItems(lookahead: nat, step: nat, imax: nat, pred: nat -> bool, s: State)
    requires s.i <= imax && s.slack <= lookahead < step
    ensures Advance(1, imax, pred, s) == Advance(step, imax, pred, s)
  {
    assert ItemsToPrefetch(1, s.slack) == ItemsToPrefetch(step, s.slack);
  }

  /** A step of one behaves, state by state, like any step above the lookahead. */
  lemma {:induction false} StepOneIsHardRamp(lookahead: nat, step: nat, imax: nat, pred: nat -> bool, n: nat)
    requires lookahead > 0 && step > lookahead
    ensures Run(Parameters(lookahead, 1), imax, pred, n) == Run(Parameters(lookahead, step), imax, pred, n)
  {
    if n > 0 {
      hide Advance;
      StepOneIsHardRamp(lookahead, step, imax, pred, n - 1);
      SlackWithinLookahead(Parameters(lookahead, 1), imax, pred, n - 1);
      SameItems(lookahead, step, imax, pred, Run(Parameters(lookahead, 1), imax, pred, n - 1));
    }
  }
}
