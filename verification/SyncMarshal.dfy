/**
 The blocking hand-off of a batch to the main thread
 (src/backend/apply_engine.c:316-329, 1600-1636, 1690-1759).

 One slot is shared, under a lock, by any number of calling threads and the one
 drain on the main thread. Each section under the lock is one step; waits end
 whenever they like. A call is named by a number, and so is its batch.
 */
module SyncMarshal {
  import opened Options

  datatype State = Empty | Published | Running | Done | Abandoned

  /** The request slot: g_sync_req. */
  datatype Slot = Slot(state: State, items: Option<nat>, applied: nat)

  // ---- the sections under the lock ----

  function PublishIn(s: Slot, call: nat): Slot {
    if s.state.Empty? then Slot(Published, Some(call), 0) else s
  }

  /** The caller looks after its first wait: a finished batch is collected, one
      still pending is withdrawn. */
  function LookIn(s: Slot): Slot {
    match s.state
    case Done => s.(state := Empty)
    case Published => Slot(Empty, None, s.applied)
    case _ => s
  }

  /** The caller looks once more after the grace period. */
  function LastLookIn(s: Slot): Slot {
    if s.state.Done? then s.(state := Empty) else s.(state := Abandoned)
  }

  function TakeIn(s: Slot): Slot {
    if s.state.Published? then Slot(Running, None, s.applied) else s
  }

  function FinishIn(s: Slot, applied: nat): Slot {
    Slot(if s.state.Running? then Done else Empty, s.items, applied)
  }

  class RequestSlot {
    var state: State
    var items: Option<nat>
    var applied: nat

    function Value(): Slot
      reads this
    {
      Slot(state, items, applied)
    }

    constructor ()
      ensures Value() == Slot(Empty, None, 0)
    {
      state, items, applied := Empty, None, 0;
    }

    /** False means that the slot was busy; the caller then frees its batch. */
    method Publish(call: nat) returns (ok: bool)
      modifies this
      ensures ok == old(state.Empty?)
      ensures ok ==> state.Published? && items == Some(call) && applied == 0
      ensures !ok ==> Value() == old(Value())
      ensures Value() == PublishIn(old(Value()), call)
    {
      if !state.Empty? {
        return false;
      }
      items, applied, state := Some(call), 0, Published;
      ok := true;
    }

    /** mine is the withdrawn batch, for the caller to free. */
    method Look() returns (done: bool, count: nat, mine: Option<nat>)
      modifies this
      ensures done == old(state.Done?) && (done ==> count == old(applied) && state.Empty? && items == old(items))
      ensures old(state.Published?) ==> mine == old(items) && state.Empty? && items.None?
      ensures !old(state.Published?) ==> mine == None
      ensures !done && !old(state.Published?) ==> Value() == old(Value())
      ensures Value() == LookIn(old(Value()))
    {
      done, count, mine := false, 0, None;
      if state.Done? {
        done, count, state := true, applied, Empty;
      } else if state.Published? {
        mine, items, state := items, None, Empty;
      }
    }

    /** After the grace period a finished request is collected, any other abandoned. */
    method LastLook() returns (done: bool, count: nat)
      modifies this
      ensures done == old(state.Done?) && (done ==> count == old(applied) && state.Empty?)
      ensures !done ==> state.Abandoned?
      ensures items == old(items) && applied == old(applied) && Value() == LastLookIn(old(Value()))
    {
      done, count := false, 0;
      if state.Done? {
        done, count, state := true, applied, Empty;
      } else {
        state := Abandoned;
      }
    }

    /** The drain takes a published batch and empties the slot of it. */
    method Take() returns (batch: Option<nat>, taken: bool)
      modifies this
      ensures taken == old(state.Published?) && batch == if taken then old(items) else None
      ensures taken ==> state.Running? && items.None? && applied == old(applied)
      ensures !taken ==> Value() == old(Value())
      ensures Value() == TakeIn(old(Value()))
    {
      batch, taken := None, state.Published?;
      if taken {
        batch, items, state := items, None, Running;
      }
    }

    /** The drain hands over its count, or empties an abandoned slot. */
    method Finish(count: nat)
      modifies this
      ensures old(state.Running?) ==> state.Done? && applied == count
      ensures old(state.Abandoned?) ==> state.Empty?
      ensures items == old(items) && Value() == FinishIn(old(Value()), count)
    {
      applied := count;
      state := if state.Running? then Done else Empty;
    }
  }

  // ---- callers and drain around the slot ----

  /** What a call has come to. */
  datatype Call = Waiting | Grace | Returned(count: nat) | NotRun | Unavailable | Lost

  predicate Ended(c: Call) {
    !c.Waiting? && !c.Grace?
  }

  /** What the drain holds: nothing, a batch it took, a batch it has run and
      freed but not reported yet. */
  datatype Drain = Idle | Took(batch: nat) | Ran(batch: nat, count: nat)

  /** What has happened to a batch: how often it ran and was freed, and the
      count of its last run. */
  datatype Record = Record(runs: nat, frees: nat, count: nat)

  datatype Sync = Sync(slot: Slot, drain: Drain, calls: map<nat, Call>, log: map<nat, Record>)

  const NEW: Record := Record(0, 0, 0)

  function RecordOf(s: Sync, c: nat): Record {
    if c in s.log then s.log[c] else NEW
  }

  datatype Step =
    | Decline(call: nat)
    | Publish(call: nat)
    | Look(call: nat)
    | LastLook(call: nat)
    | Take
    | Run(applied: nat)
    | Finish

  predicate Enabled(s: Sync, step: Step) {
    match step
    case Decline(c) => c !in s.calls
    case Publish(c) => c !in s.calls
    case Look(c) => c in s.calls && s.calls[c].Waiting?
    case LastLook(c) => c in s.calls && s.calls[c].Grace?
    case Take => s.drain.Idle?
    case Run(_) => s.drain.Took?
    case Finish => s.drain.Ran?
  }

  function Free(s: Sync, c: nat): Sync {
    s.(log := s.log[c := RecordOf(s, c).(frees := RecordOf(s, c).frees + 1)])
  }

  /** A batch that is withdrawn is the one in the slot, whoever put it there. */
  function FreeItems(s: Sync, items: Option<nat>): Sync {
    match items
    case None => s
    case Some(c) => Free(s, c)
  }

  function Apply(s: Sync, step: Step): Sync
    requires Enabled(s, step)
  {
    match step
    case Decline(c) => Free(s.(calls := s.calls[c := Unavailable]), c)
    case Publish(c) =>
      if s.slot.state.Empty? then s.(slot := PublishIn(s.slot, c), calls := s.calls[c := Waiting])
      else Free(s.(calls := s.calls[c := Unavailable]), c)
    case Look(c) =>
      var s' := s.(slot := LookIn(s.slot));
      (match s.slot.state
       case Done => s'.(calls := s.calls[c := Returned(s.slot.applied)])
       case Published => FreeItems(s'.(calls := s.calls[c := NotRun]), s.slot.items)
       case _ => s'.(calls := s.calls[c := Grace]))
    case LastLook(c) =>
      s.(slot := LastLookIn(s.slot),
         calls := s.calls[c := if s.slot.state.Done? then Returned(s.slot.applied) else Lost])
    case Take =>
      if s.slot.state.Published? && s.slot.items.Some? then s.(slot := TakeIn(s.slot), drain := Took(s.slot.items.value))
      else s
    case Run(count) =>
      var c := s.drain.batch;
      var r := RecordOf(s, c);
      s.(drain := Ran(c, count), log := s.log[c := Record(r.runs + 1, r.frees + 1, count)])
    case Finish => s.(slot := FinishIn(s.slot, s.drain.count), drain := Idle)
  }

  const START: Sync := Sync(Slot(Empty, None, 0), Idle, map[], map[])

  // ---- the invariant ----

  predicate Active(s: Sync, c: nat) {
    c in s.calls && !Ended(s.calls[c])
  }

  /** The drain is at work on c's batch. */
  predicate Drains(s: Sync, c: nat) {
    !s.drain.Idle? && s.drain.batch == c
  }

  /** c's batch while the drain has it. */
  predicate DrainRecord(s: Sync, c: nat) {
    match s.drain
    case Idle => false
    case Took(b) => b == c && RecordOf(s, c) == NEW
    case Ran(b, count) => b == c && RecordOf(s, c) == Record(1, 1, count)
  }

  /** Who the slot belongs to, and what that says of its batch. */
  predicate SlotOf(s: Sync, c: nat) {
    match s.slot.state
    case Empty => false
    case Published => s.slot.items == Some(c) && s.drain.Idle? && c in s.calls && s.calls[c].Waiting? && RecordOf(s, c) == NEW
    case Running => s.slot.items.None? && Active(s, c) && DrainRecord(s, c)
    case Done => s.slot.items.None? && s.drain.Idle? && Active(s, c) && RecordOf(s, c) == Record(1, 1, s.slot.applied)
    case Abandoned => s.slot.items.None? && c in s.calls && s.calls[c].Lost? && DrainRecord(s, c)
  }

  /** What every ended call may rely on. */
  predicate Settled(s: Sync, c: nat)
    requires c in s.calls
  {
    match s.calls[c]
    case Waiting => true
    case Grace => true
    case Returned(count) => RecordOf(s, c) == Record(1, 1, count) && !Drains(s, c)
    case NotRun => RecordOf(s, c).runs == 0 && RecordOf(s, c).frees == 1 && !Drains(s, c)
    case Unavailable => RecordOf(s, c).runs == 0 && RecordOf(s, c).frees == 1 && !Drains(s, c)
    case Lost => if Drains(s, c) then s.slot.state.Abandoned? else RecordOf(s, c).runs == 1 && RecordOf(s, c).frees == 1
  }

  ghost predicate Owned(s: Sync) {
    if s.slot.state.Empty? then s.slot.items.None? && s.drain.Idle? && forall c :: !Active(s, c)
    else exists c :: SlotOf(s, c) && forall d :: Active(s, d) ==> d == c
  }

  ghost predicate Inv(s: Sync) {
    && Owned(s)
    && (forall c :: c in s.calls ==> Settled(s, c))
    && (forall c :: c !in s.calls ==> RecordOf(s, c) == NEW)
  }

  lemma StartInv()
    ensures Inv(START)
  {
  }

  lemma StepOwned(s: Sync, step: Step)
    requires Inv(s) && Enabled(s, step)
    ensures Owned(Apply(s, step))
  {
    var s' := Apply(s, step);
    if step.Look? || step.LastLook? {
      assert Active(s, step.call);
    }
    forall d | Active(s', d) ensures Active(s, d) || (step == Publish(d) && s.slot.state.Empty?) {
    }
    if !s.slot.state.Empty? {
      var c :| SlotOf(s, c) && forall d :: Active(s, d) ==> d == c;
      if !s'.slot.state.Empty? {
        assert SlotOf(s', c);
      } else {
        assert !Active(s', c);
      }
    } else if step.Publish? {
      assert SlotOf(s', step.call);
    }
  }

  lemma StepSettled(s: Sync, step: Step, d: nat)
    requires Inv(s) && Enabled(s, step) && d in Apply(s, step).calls
    ensures Settled(Apply(s, step), d)
  {
    if step.Look? || step.LastLook? {
      assert Active(s, step.call);
    }
    if d in s.calls {
      assert Settled(s, d);
    }
    if !s.slot.state.Empty? {
      var c :| SlotOf(s, c) && forall e :: Active(s, e) ==> e == c;
      assert Settled(s, c);
    }
  }

  lemma StepFresh(s: Sync, step: Step, d: nat)
    requires Inv(s) && Enabled(s, step) && d !in Apply(s, step).calls
    ensures RecordOf(Apply(s, step), d) == NEW
  {
    if !s.slot.state.Empty? {
      var c :| SlotOf(s, c) && forall e :: Active(s, e) ==> e == c;
    }
  }

  /** Every step of any caller or of the drain keeps the invariant. */
  lemma StepInv(s: Sync, step: Step)
    requires Inv(s) && Enabled(s, step)
    ensures Inv(Apply(s, step))
  {
    StepOwned(s, step);
    forall d | d in Apply(s, step).calls ensures Settled(Apply(s, step), d) {
      StepSettled(s, step, d);
    }
    forall d | d !in Apply(s, step).calls ensures RecordOf(Apply(s, step), d) == NEW {
      StepFresh(s, step, d);
    }
  }

  // ---- whole runs ----

  /** The state after the steps, as long as each is enabled in its turn. */
  ghost predicate Behaves(steps: seq<Step>, trace: seq<Sync>) {
    && |trace| == |steps| + 1 && trace[0] == START
    && forall i :: 0 <= i < |steps| ==> Enabled(trace[i], steps[i]) && trace[i + 1] == Apply(trace[i], steps[i])
  }

  /** The invariant holds in every state of every interleaving. */
  lemma {:induction false} Invariant(steps: seq<Step>, trace: seq<Sync>, i: nat)
    requires Behaves(steps, trace) && i < |trace|
    ensures Inv(trace[i])
    decreases i
  {
    if i == 0 {
      StartInv();
    } else {
      Invariant(steps, trace, i - 1);
      StepInv(trace[i - 1], steps[i - 1]);
    }
  }

  /** An ended call keeps its outcome. */
  lemma {:induction false} OutcomeStays(steps: seq<Step>, trace: seq<Sync>, i: nat, k: nat, c: nat)
    requires Behaves(steps, trace) && i <= k < |trace|
    requires c in trace[i].calls && Ended(trace[i].calls[c])
    ensures c in trace[k].calls && trace[k].calls[c] == trace[i].calls[c]
    decreases k - i
  {
    if i < k {
      OutcomeStays(steps, trace, i, k - 1, c);
      assert Enabled(trace[k - 1], steps[k - 1]) && trace[k] == Apply(trace[k - 1], steps[k - 1]);
    }
  }

  /** In every interleaving, whatever time passes after the call ended:
      NOT_RUN and UNAVAILABLE mean that the batch did not and will not run, DONE
      gives the count of its one run, and in each case it is freed once. */
  lemma OutcomeMeans(steps: seq<Step>, trace: seq<Sync>, i: nat, k: nat, c: nat)
    requires Behaves(steps, trace) && i <= k < |trace|
    requires c in trace[i].calls && Ended(trace[i].calls[c])
    ensures var r := RecordOf(trace[k], c);
            match trace[i].calls[c]
            case Returned(count) => r == Record(1, 1, count)
            case NotRun => r.runs == 0 && r.frees == 1
            case Unavailable => r.runs == 0 && r.frees == 1
            case _ => r.runs <= 1 && r.frees == r.runs
  {
    OutcomeStays(steps, trace, i, k, c);
    Invariant(steps, trace, k);
    assert Settled(trace[k], c);
    if Drains(trace[k], c) {
      var d :| SlotOf(trace[k], d) && forall e :: Active(trace[k], e) ==> e == d;
    }
  }

  /** No batch, of any call at any time, runs twice or is freed twice, and none
      is freed before its run when it runs. */
  lemma AtMostOnce(steps: seq<Step>, trace: seq<Sync>, i: nat, c: nat)
    requires Behaves(steps, trace) && i < |trace|
    ensures RecordOf(trace[i], c).runs <= RecordOf(trace[i], c).frees <= 1
  {
    Invariant(steps, trace, i);
    var s := trace[i];
    if c in s.calls {
      assert Settled(s, c);
      if !s.slot.state.Empty? {
        var d :| SlotOf(s, d) && forall e :: Active(s, e) ==> e == d;
        assert Active(s, c) ==> c == d;
      } else {
        assert !Active(s, c);
      }
    }
  }

  /** A withdrawn batch is the withdrawing call's own. */
  lemma WithdrawsOwn(steps: seq<Step>, trace: seq<Sync>, i: nat, c: nat)
    requires Behaves(steps, trace) && i < |trace| && Enabled(trace[i], Look(c)) && trace[i].slot.state.Published?
    ensures trace[i].slot.items == Some(c)
  {
    Invariant(steps, trace, i);
    assert Active(trace[i], c);
  }

  /** What the drain's last step is for: a caller that still waits gets the count of its own batch, whichever of its
      looks comes next; when it has given up the slot takes the next batch. */
  lemma FinishDelivers(steps: seq<Step>, trace: seq<Sync>, i: nat)
    requires Behaves(steps, trace) && i < |trace| && Enabled(trace[i], Finish)
    ensures var s := trace[i];
            var c, s' := s.drain.batch, Apply(s, Finish);
            && RecordOf(s, c) == Record(1, 1, s.drain.count)
            && (Active(s, c) ==> forall look :: look in {Look(c), LastLook(c)} && Enabled(s', look) ==>
                                   && Apply(s', look).calls[c] == Returned(s.drain.count)
                                   && Apply(s', look).slot.state.Empty?)
            && (!Active(s, c) ==> forall d :: d !in s.calls ==>
                                    Enabled(s', Publish(d)) && Active(Apply(s', Publish(d)), d))
  {
    Invariant(steps, trace, i);
    var s := trace[i];
    var d :| SlotOf(s, d) && forall e :: Active(s, e) ==> e == d;
    assert d == s.drain.batch;
  }

  /** An abandoned slot is held by the drain alone, whose last step empties it.
      The next call to publish then starts from an empty slot. */
  lemma AbandonedIsReleased(steps: seq<Step>, trace: seq<Sync>, i: nat, count: nat)
    requires Behaves(steps, trace) && i < |trace| && trace[i].slot.state.Abandoned?
    ensures var s := trace[i];
            && !s.drain.Idle? && s.drain.batch in s.calls && s.calls[s.drain.batch].Lost?
            && (forall c :: !Active(s, c))
            && var ran := if s.drain.Took? then Apply(s, Run(count)) else s;
               Enabled(ran, Finish) && Apply(ran, Finish).slot.state.Empty? && Apply(ran, Finish).drain.Idle?
  {
    Invariant(steps, trace, i);
    var s := trace[i];
    var d :| SlotOf(s, d) && forall e :: Active(s, e) ==> e == d;
    assert !Active(s, d);
  }

  /** What a published batch can still come to: its caller takes it back unrun, or the drain runs it, and whether its
      caller then hears of it depends on when it looks. */
  lemma PublishedGoesOn(steps: seq<Step>, trace: seq<Sync>, i: nat, c: nat, count: nat)
    requires Behaves(steps, trace) && i < |trace| && Enabled(trace[i], Publish(c)) && trace[i].slot.state.Empty?
    ensures var s := Apply(trace[i], Publish(c));
            && Enabled(s, Look(c)) && Enabled(s, Take)
            && Apply(s, Look(c)) == trace[i].(slot := Slot(Empty, None, 0), calls := trace[i].calls[c := NotRun],
                                              log := trace[i].log[c := Record(0, 1, 0)])
            && var t := Apply(s, Take);
               && Enabled(t, Look(c)) && Enabled(Apply(t, Look(c)), LastLook(c)) && Enabled(t, Run(count))
               && Apply(t, Look(c)).calls[c] == Grace && Apply(Apply(t, Look(c)), LastLook(c)).calls[c] == Lost
               && var u := Apply(t, Run(count));
                  && RecordOf(u, c) == Record(1, 1, count) && Enabled(u, Finish)
                  && Enabled(Apply(u, Finish), Look(c))
                  && Apply(Apply(u, Finish), Look(c)).calls[c] == Returned(count)
                  && Apply(Apply(u, Finish), Look(c)).slot.state.Empty?
  {
    Invariant(steps, trace, i);
    assert RecordOf(trace[i], c) == NEW;
  }

  /** A call that finds the slot in use, or that has nothing to do, frees its own batch and changes nothing else. */
  lemma BusyDeclines(s: Sync, c: nat)
    requires Inv(s) && c !in s.calls
    ensures Apply(s, Decline(c)) == s.(calls := s.calls[c := Unavailable], log := s.log[c := Record(0, 1, 0)])
    ensures !s.slot.state.Empty? ==> Apply(s, Publish(c)) == Apply(s, Decline(c))
  {
    assert RecordOf(s, c) == NEW;
  }
}
