/**
 The deferred batch (src/backend/apply_engine.c:310-313, 1638-1664, 3016-3071).

 A batch is a block of memory at an address, and addresses are used again. The
 slot holds one address; after a failed enqueue the scheduler takes its batch
 back only when the slot still holds its address with its serial number.
 */
module Deferred {
  import opened Options

  /** g_pending_items with g_pending_serial. */
  datatype Slot = Slot(items: Option<nat>, serial: nat)

  function StoreIn(s: Slot, block: nat): Slot {
    if s.items.None? then Slot(Some(block), s.serial + 1) else s
  }

  function WithdrawIn(s: Slot, block: nat, serial: nat): Slot {
    if s.items == Some(block) && s.serial == serial then s.(items := None) else s
  }

  class PendingSlot {
    var items: Option<nat>
    var serial: nat

    function Value(): Slot
      reads this
    {
      Slot(items, serial)
    }

    constructor ()
      ensures Value() == Slot(None, 0)
    {
      items, serial := None, 0;
    }

    /** Refused when a batch is already waiting. */
    method Store(block: nat) returns (ok: bool, mine: nat)
      modifies this
      ensures Value() == StoreIn(old(Value()), block)
      ensures ok == old(items.None?) && (ok ==> mine == serial)
    {
      ok, mine := items.None?, 0;
      if ok {
        items, serial := Some(block), serial + 1;
        mine := serial;
      }
    }

    /** The slot is emptied exactly when it holds the given address with the given serial number. */
    method Withdraw(block: nat, mine: nat) returns (ok: bool)
      modifies this
      ensures Value() == WithdrawIn(old(Value()), block, mine)
      ensures ok == (old(items) == Some(block) && old(serial) == mine)
    {
      ok := items == Some(block) && serial == mine;
      if ok {
        items := None;
      }
    }

    /** The drain takes whatever waits. */
    method Take() returns (block: Option<nat>)
      modifies this
      ensures block == old(items) && Value() == old(Value()).(items := None)
    {
      block, items := items, None;
    }
  }

  /** A scheduler: it has a copy, has stored it, has failed to enqueue the
      command, or has returned. */
  datatype Call = Copied(block: nat) | Stored(block: nat, serial: nat) | Unqueued(block: nat, serial: nat)
                | Accepted | Refused

  datatype Drain = Idle | Took(block: nat)

  /** heap: which call's batch lives at an address. */
  datatype Sys = Sys(slot: Slot, drain: Drain, heap: map<nat, nat>, calls: map<nat, Call>, runs: map<nat, nat>)

  datatype Step =
    | Copy(call: nat, block: nat)
    | Store(call: nat)
    | Enqueue(call: nat, ok: bool)
    | Withdraw(call: nat)
    | Take
    | Run

  function RunsOf(s: Sys, c: nat): nat {
    if c in s.runs then s.runs[c] else 0
  }

  /** A new copy gets any address that is not in use. */
  predicate Enabled(s: Sys, step: Step) {
    match step
    case Copy(c, block) => c !in s.calls && block !in s.heap
    case Store(c) => c in s.calls && s.calls[c].Copied?
    case Enqueue(c, _) => c in s.calls && s.calls[c].Stored?
    case Withdraw(c) => c in s.calls && s.calls[c].Unqueued?
    case Take => s.drain.Idle?
    case Run => s.drain.Took? && s.drain.block in s.heap
  }

  function Apply(s: Sys, step: Step): Sys
    requires Enabled(s, step)
  {
    match step
    case Copy(c, block) => s.(heap := s.heap[block := c], calls := s.calls[c := Copied(block)])
    case Store(c) =>
      var block := s.calls[c].block;
      if s.slot.items.None? then
        s.(slot := StoreIn(s.slot, block), calls := s.calls[c := Stored(block, s.slot.serial + 1)])
      else
        s.(heap := s.heap - {block}, calls := s.calls[c := Refused])
    case Enqueue(c, ok) =>
      s.(calls := s.calls[c := if ok then Accepted else Unqueued(s.calls[c].block, s.calls[c].serial)])
    case Withdraw(c) =>
      var block, serial := s.calls[c].block, s.calls[c].serial;
      if s.slot.items == Some(block) && s.slot.serial == serial then
        s.(slot := WithdrawIn(s.slot, block, serial), heap := s.heap - {block}, calls := s.calls[c := Refused])
      else
        s.(calls := s.calls[c := Accepted])
    case Take =>
      if s.slot.items.Some? then s.(slot := s.slot.(items := None), drain := Took(s.slot.items.value)) else s
    case Run =>
      var c := s.heap[s.drain.block];
      s.(drain := Idle, heap := s.heap - {s.drain.block}, runs := s.runs[c := RunsOf(s, c) + 1])
  }

  const START: Sys := Sys(Slot(None, 0), Idle, map[], map[], map[])

  /** c's batch is in the slot. */
  predicate InSlot(s: Sys, c: nat) {
    s.slot.items.Some? && s.slot.items.value in s.heap && s.heap[s.slot.items.value] == c
  }

  predicate InDrain(s: Sys, c: nat) {
    s.drain.Took? && s.drain.block in s.heap && s.heap[s.drain.block] == c
  }

  /** Where a scheduler's batch is. Its serial is still the slot's exactly while
      the slot holds its batch, or nothing. */
  predicate Placed(s: Sys, c: nat)
    requires c in s.calls
  {
    match s.calls[c]
    case Copied(block) => block in s.heap && s.heap[block] == c && !InSlot(s, c) && !InDrain(s, c) && RunsOf(s, c) == 0
    case Stored(block, serial) => Handed(s, c, block, serial)
    case Unqueued(block, serial) => Handed(s, c, block, serial)
    case Accepted => Gone(s, c)
    case Refused => !InSlot(s, c) && !InDrain(s, c) && RunsOf(s, c) == 0
  }

  /** A batch that was handed over waits, is being run, or has run, once. */
  predicate Gone(s: Sys, c: nat) {
    && RunsOf(s, c) == (if InSlot(s, c) || InDrain(s, c) then 0 else 1)
    && !(InSlot(s, c) && InDrain(s, c))
  }

  predicate Handed(s: Sys, c: nat, block: nat, serial: nat) {
    && Gone(s, c) && serial <= s.slot.serial
    && (InSlot(s, c) ==> s.slot.items == Some(block) && s.slot.serial == serial)
    && (!InSlot(s, c) && s.slot.items.Some? ==> serial < s.slot.serial)
  }

  ghost predicate Inv(s: Sys) {
    && BlocksRight(s)
    && (forall c :: c in s.calls ==> Placed(s, c))
    && (forall c :: c !in s.calls ==> RunsOf(s, c) == 0)
  }

  /** The blocks in use belong to calls, one each, and somebody holds each. */
  ghost predicate BlocksRight(s: Sys) {
    && (s.slot.items.Some? ==> s.slot.items.value in s.heap)
    && (s.drain.Took? ==> s.drain.block in s.heap && s.slot.items != Some(s.drain.block))
    && (forall a, b :: a in s.heap && b in s.heap && s.heap[a] == s.heap[b] ==> a == b)
    && (forall a :: a in s.heap ==> s.heap[a] in s.calls && Held(s, a))
  }

  /** Somebody still holds the block: nothing is leaked. */
  predicate Held(s: Sys, a: nat)
    requires a in s.heap && s.heap[a] in s.calls
  {
    s.calls[s.heap[a]] == Copied(a) || s.slot.items == Some(a) || s.drain == Took(a)
  }

  lemma CopyPlaced(s: Sys, step: Step, c: nat)
    requires Inv(s) && Enabled(s, step) && step.Copy? && c in Apply(s, step).calls
    ensures Placed(Apply(s, step), c)
  {
    if c in s.calls {
      assert Placed(s, c);
    }
  }

  lemma StorePlaced(s: Sys, step: Step, c: nat)
    requires Inv(s) && Enabled(s, step) && step.Store? && c in Apply(s, step).calls
    ensures Placed(Apply(s, step), c)
  {
    if c in s.calls {
      assert Placed(s, c);
    }
    assert Placed(s, step.call);
  }

  lemma EnqueuePlaced(s: Sys, step: Step, c: nat)
    requires Inv(s) && Enabled(s, step) && step.Enqueue? && c in Apply(s, step).calls
    ensures Placed(Apply(s, step), c)
  {
    if c in s.calls {
      assert Placed(s, c);
    }
    assert Placed(s, step.call);
  }

  lemma WithdrawPlaced(s: Sys, step: Step, c: nat)
    requires Inv(s) && Enabled(s, step) && step.Withdraw? && c in Apply(s, step).calls
    ensures Placed(Apply(s, step), c)
  {
    if c in s.calls {
      assert Placed(s, c);
    }
    assert Placed(s, step.call);
  }

  lemma TakePlaced(s: Sys, step: Step, c: nat)
    requires Inv(s) && Enabled(s, step) && step.Take? && c in Apply(s, step).calls
    ensures Placed(Apply(s, step), c)
  {
    if c in s.calls {
      assert Placed(s, c);
    }
  }

  lemma RunPlaced(s: Sys, step: Step, c: nat)
    requires Inv(s) && Enabled(s, step) && step.Run? && c in Apply(s, step).calls
    ensures Placed(Apply(s, step), c)
  {
    if c in s.calls {
      assert Placed(s, c);
    }
  }

  lemma StepPlaced(s: Sys, step: Step, c: nat)
    requires Inv(s) && Enabled(s, step) && c in Apply(s, step).calls
    ensures Placed(Apply(s, step), c)
  {
    hide *;
    match step
    case Copy(_, _) => CopyPlaced(s, step, c);
    case Store(_) => StorePlaced(s, step, c);
    case Enqueue(_, _) => EnqueuePlaced(s, step, c);
    case Withdraw(_) => WithdrawPlaced(s, step, c);
    case Take => TakePlaced(s, step, c);
    case Run => RunPlaced(s, step, c);
  }

  lemma WithdrawBlocks(s: Sys, step: Step)
    requires Inv(s) && Enabled(s, step) && step.Withdraw?
    ensures BlocksRight(Apply(s, step))
  {
    assert Placed(s, step.call);
  }

  lemma StoreBlocks(s: Sys, step: Step)
    requires Inv(s) && Enabled(s, step) && step.Store?
    ensures BlocksRight(Apply(s, step))
  {
    assert Placed(s, step.call);
    hide Gone, Handed;
  }

  lemma OtherBlocks(s: Sys, step: Step)
    requires Inv(s) && Enabled(s, step) && !step.Store? && !step.Withdraw?
    ensures BlocksRight(Apply(s, step))
  {
    hide Gone, Handed, Placed;
  }

  lemma StepBlocks(s: Sys, step: Step)
    requires Inv(s) && Enabled(s, step)
    ensures BlocksRight(Apply(s, step))
  {
    hide *;
    if step.Store? {
      StoreBlocks(s, step);
    } else if step.Withdraw? {
      WithdrawBlocks(s, step);
    } else {
      OtherBlocks(s, step);
    }
  }

  /** Every step of any scheduler or of the drain keeps the invariant. */
  lemma StepInv(s: Sys, step: Step)
    requires Inv(s) && Enabled(s, step)
    ensures Inv(Apply(s, step))
  {
    StepBlocks(s, step);
    hide Placed, BlocksRight;
    var s' := Apply(s, step);
    forall c | c in s'.calls ensures Placed(s', c) {
      StepPlaced(s, step, c);
    }
    forall c | c !in s'.calls ensures RunsOf(s', c) == 0 {
      UnknownNeverRuns(s, step, c);
    }
  }

  lemma UnknownNeverRuns(s: Sys, step: Step, c: nat)
    requires Inv(s) && Enabled(s, step) && c !in Apply(s, step).calls
    ensures RunsOf(Apply(s, step), c) == 0
  {
    hide Placed;
  }

  ghost predicate Behaves(steps: seq<Step>, trace: seq<Sys>) {
    && |trace| == |steps| + 1 && trace[0] == START
    && forall i :: 0 <= i < |steps| ==> Enabled(trace[i], steps[i]) && trace[i + 1] == Apply(trace[i], steps[i])
  }

  lemma {:induction false} Invariant(steps: seq<Step>, trace: seq<Sys>, i: nat)
    requires Behaves(steps, trace) && i < |trace|
    ensures Inv(trace[i])
    decreases i
  {
    if i > 0 {
      Invariant(steps, trace, i - 1);
      StepInv(trace[i - 1], steps[i - 1]);
    }
  }

  predicate Returned(c: Call) {
    c.Accepted? || c.Refused?
  }

  lemma {:induction false} OutcomeStays(steps: seq<Step>, trace: seq<Sys>, i: nat, k: nat, c: nat)
    requires Behaves(steps, trace) && i <= k < |trace|
    requires c in trace[i].calls && Returned(trace[i].calls[c])
    ensures c in trace[k].calls && trace[k].calls[c] == trace[i].calls[c]
    decreases k - i
  {
    if i < k {
      OutcomeStays(steps, trace, i, k - 1, c);
      assert Enabled(trace[k - 1], steps[k - 1]) && trace[k] == Apply(trace[k - 1], steps[k - 1]);
    }
  }

  /** An accepted batch is never discarded: at any later time it waits, is being
      run or has run once. A refused one never runs. */
  lemma OutcomeMeans(steps: seq<Step>, trace: seq<Sys>, i: nat, k: nat, c: nat)
    requires Behaves(steps, trace) && i <= k < |trace|
    requires c in trace[i].calls && Returned(trace[i].calls[c])
    ensures trace[i].calls[c].Accepted? ==>
      RunsOf(trace[k], c) == if InSlot(trace[k], c) || InDrain(trace[k], c) then 0 else 1
    ensures trace[i].calls[c].Refused? ==>
      RunsOf(trace[k], c) == 0 && !InSlot(trace[k], c) && !InDrain(trace[k], c)
  {
    OutcomeStays(steps, trace, i, k, c);
    Invariant(steps, trace, k);
    assert Placed(trace[k], c);
  }

  /** Only its own batch: whatever has happened to the slot in between, the
      scheduler takes a batch back exactly when the slot still holds its own. */
  lemma WithdrawsOwnIff(steps: seq<Step>, trace: seq<Sys>, i: nat, c: nat)
    requires Behaves(steps, trace) && i < |trace| && Enabled(trace[i], Withdraw(c))
    ensures var s := trace[i];
            s.slot.items == Some(s.calls[c].block) && s.slot.serial == s.calls[c].serial <==> InSlot(s, c)
  {
    Invariant(steps, trace, i);
    assert Placed(trace[i], c);
  }

  /** No block outlives its batch: a block in use is a copy not stored yet, or
      in the slot, or with the drain. */
  lemma NothingLeaks(steps: seq<Step>, trace: seq<Sys>, i: nat, a: nat)
    requires Behaves(steps, trace) && i < |trace| && a in trace[i].heap
    ensures trace[i].heap[a] in trace[i].calls && Held(trace[i], a)
  {
    Invariant(steps, trace, i);
  }

  // The address alone would not do.

  const REUSE: seq<Step> := [Copy(1, 100), Store(1), Enqueue(1, false), Take, Run, Copy(2, 100), Store(2)]

  const REUSED: seq<Sys> := [
    START,
    Sys(Slot(None, 0), Idle, map[100 := 1], map[1 := Copied(100)], map[]),
    Sys(Slot(Some(100), 1), Idle, map[100 := 1], map[1 := Stored(100, 1)], map[]),
    Sys(Slot(Some(100), 1), Idle, map[100 := 1], map[1 := Unqueued(100, 1)], map[]),
    Sys(Slot(None, 1), Took(100), map[100 := 1], map[1 := Unqueued(100, 1)], map[]),
    Sys(Slot(None, 1), Idle, map[], map[1 := Unqueued(100, 1)], map[1 := 1]),
    Sys(Slot(None, 1), Idle, map[100 := 2], map[1 := Unqueued(100, 1), 2 := Copied(100)], map[1 := 1]),
    Sys(Slot(Some(100), 2), Idle, map[100 := 2], map[1 := Unqueued(100, 1), 2 := Stored(100, 2)], map[1 := 1])]

  lemma ReuseStep(i: nat)
    requires i < 7
    ensures Enabled(REUSED[i], REUSE[i]) && REUSED[i + 1] == Apply(REUSED[i], REUSE[i])
  {
    if i == 4 {
      assert map[100 := 1] - {100} == map[];
    }
  }

  /** Here the slot holds scheduler 1's address again, with scheduler 2's batch
      at it, and only the serial number tells. */
  lemma AddressAloneMisleads()
    ensures Behaves(REUSE, REUSED)
    ensures Enabled(REUSED[7], Withdraw(1)) && REUSED[7].slot.items == Some(REUSED[7].calls[1].block)
    ensures InSlot(REUSED[7], 2) && !InSlot(REUSED[7], 1) && REUSED[7].slot.serial != REUSED[7].calls[1].serial
  {
    forall i | 0 <= i < 7 ensures Enabled(REUSED[i], REUSE[i]) && REUSED[i + 1] == Apply(REUSED[i], REUSE[i]) {
      ReuseStep(i);
    }
  }

  /** A stored batch runs once when the drain comes round; with a batch waiting the next one is refused and freed. */
  lemma StoredGoesOn(steps: seq<Step>, trace: seq<Sys>, i: nat, c: nat)
    requires Behaves(steps, trace) && i < |trace| && Enabled(trace[i], Store(c))
    ensures var s := trace[i];
            var block, t := s.calls[c].block, Apply(s, Store(c));
            && (s.slot.items.Some? ==>
                  t.calls[c] == Refused && block !in t.heap && t.slot == s.slot && (forall a :: a in s.heap && a != block ==> a in t.heap))
            && (s.slot.items.None? ==>
                  && Enabled(t, Enqueue(c, true)) && Apply(t, Enqueue(c, true)).calls[c] == Accepted
                  && Enabled(t, Enqueue(c, false)) && Enabled(Apply(t, Enqueue(c, false)), Withdraw(c))
                  && (s.drain.Idle? ==>
                        && Enabled(t, Take) && Enabled(Apply(t, Take), Run) && InDrain(Apply(t, Take), c)
                        && RunsOf(Apply(Apply(t, Take), Run), c) == 1
                        && Apply(Apply(t, Take), Run).slot.items.None? && block !in Apply(Apply(t, Take), Run).heap))
  {
    Invariant(steps, trace, i);
    assert Placed(trace[i], c);
  }

  /** A batch that could not be enqueued is taken back, freed and reported, unless the drain has had it already. */
  lemma WithdrawDoes(steps: seq<Step>, trace: seq<Sys>, i: nat, c: nat)
    requires Behaves(steps, trace) && i < |trace| && Enabled(trace[i], Withdraw(c))
    ensures var s := trace[i];
            var t := Apply(s, Withdraw(c));
            && (InSlot(s, c) ==> t.calls[c] == Refused && t.slot.items.None? && s.calls[c].block !in t.heap)
            && (!InSlot(s, c) ==> t == s.(calls := s.calls[c := Accepted]))
  {
    Invariant(steps, trace, i);
    assert Placed(trace[i], c);
  }
}
