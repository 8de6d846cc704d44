/**
 The one-at-a-time call on the main thread (src/backend/apply_engine.c:516-593).

 A caller lends its ctx to the call. The main thread polls for a published call
 and never waits; a caller withdraws a call that has not started, and waits out
 one that has.
 */
module MainCall {

  datatype State = Empty | Published | Running | Done

  /** g_mc_state, g_mc_fn with its ctx (the call's number), g_mc_result. */
  datatype Slot = Slot(state: State, call: nat, result: int)

  function PublishIn(s: Slot, call: nat): Slot {
    if s.state.Empty? then Slot(Published, call, 0) else s
  }

  /** The deadline passed or the call was picked up. */
  function LeaveIn(s: Slot): Slot {
    if s.state.Running? then s else s.(state := Empty)
  }

  function TakeIn(s: Slot): Slot {
    if s.state.Published? then s.(state := Running) else s
  }

  function FinishIn(s: Slot, result: int): Slot {
    s.(state := Done, result := result)
  }

  class CallSlot {
    var state: State
    var call: nat
    var result: int

    function Value(): Slot
      reads this
    {
      Slot(state, call, result)
    }

    constructor ()
      ensures Value().state.Empty?
    {
      state, call, result := Empty, 0, 0;
    }

    method Publish(call: nat) returns (ok: bool)
      modifies this
      ensures ok == old(state.Empty?) && Value() == PublishIn(old(Value()), call)
    {
      if !state.Empty? {
        return false;
      }
      this.call, result, state := call, 0, Published;
      ok := true;
    }

    /** Woken, with the deadline passed or the call picked up: 0 withdraws, a
        running call is still waited for, a finished one is collected. */
    method Leave() returns (left: bool, finished: bool, out: int)
      modifies this
      ensures Value() == LeaveIn(old(Value()))
      ensures left == !old(state.Running?) && finished == (left && !old(state.Published?))
      ensures finished ==> out == old(result)
    {
      left, finished, out := true, false, 0;
      if state.Published? {
        state := Empty;
      } else if state.Running? {
        left := false;
      } else {
        finished, out, state := true, result, Empty;
      }
    }

    method Take() returns (taken: bool, what: nat)
      modifies this
      ensures Value() == TakeIn(old(Value())) && taken == old(state.Published?) && what == old(call)
    {
      taken, what := state.Published?, call;
      if taken {
        state := Running;
      }
    }

    method Finish(r: int)
      modifies this
      ensures Value() == FinishIn(old(Value()), r)
    {
      result, state := r, Done;
    }
  }

  /** What a call has come to: Declined and Withdrawn return 0, Finished 1. */
  datatype Call = Waiting | Declined | Withdrawn | Finished(result: int)

  datatype Poll = Idle | Invoking(call: nat) | Invoked(call: nat, result: int)

  datatype Record = Record(runs: nat, result: int)

  datatype Sys = Sys(slot: Slot, poll: Poll, calls: map<nat, Call>, log: map<nat, Record>)

  const NEW: Record := Record(0, 0)

  function RecordOf(s: Sys, c: nat): Record {
    if c in s.log then s.log[c] else NEW
  }

  datatype Step =
    | Inline(call: nat, r: int)
    | Publish(call: nat)
    | Leave(call: nat)
    | Take
    | Invoke(r: int)
    | Finish

  predicate Enabled(s: Sys, step: Step) {
    match step
    case Inline(c, _) => c !in s.calls
    case Publish(c) => c !in s.calls
    case Leave(c) => c in s.calls && s.calls[c].Waiting?
    case Take => s.poll.Idle?
    case Invoke(_) => s.poll.Invoking?
    case Finish => s.poll.Invoked?
  }

  function Ran(s: Sys, c: nat, r: int): Sys {
    s.(log := s.log[c := Record(RecordOf(s, c).runs + 1, r)])
  }

  function Apply(s: Sys, step: Step): Sys
    requires Enabled(s, step)
  {
    match step
    case Inline(c, r) => Ran(s.(calls := s.calls[c := Finished(r)]), c, r)
    case Publish(c) =>
      s.(slot := PublishIn(s.slot, c), calls := s.calls[c := if s.slot.state.Empty? then Waiting else Declined])
    case Leave(c) =>
      s.(slot := LeaveIn(s.slot),
         calls := s.calls[c := match s.slot.state
                               case Published => Withdrawn
                               case Running => Waiting
                               case _ => Finished(s.slot.result)])
    case Take => if s.slot.state.Published? then s.(slot := TakeIn(s.slot), poll := Invoking(s.slot.call)) else s
    case Invoke(r) => Ran(s.(poll := Invoked(s.poll.call, r)), s.poll.call, r)
    case Finish => s.(slot := FinishIn(s.slot, s.poll.result), poll := Idle)
  }

  const START: Sys := Sys(Slot(Empty, 0, 0), Idle, map[], map[])

  predicate Waits(s: Sys, c: nat) {
    c in s.calls && s.calls[c].Waiting?
  }

  /** The slot is in use exactly by the one call that waits. */
  predicate SlotOf(s: Sys) {
    var c := s.slot.call;
    match s.slot.state
    case Empty => s.poll.Idle?
    case Published => Waits(s, c) && s.poll.Idle? && RecordOf(s, c) == NEW
    case Running =>
      Waits(s, c) &&
      (match s.poll
       case Idle => false
       case Invoking(b) => b == c && RecordOf(s, c) == NEW
       case Invoked(b, r) => b == c && RecordOf(s, c) == Record(1, r))
    case Done => Waits(s, c) && s.poll.Idle? && RecordOf(s, c) == Record(1, s.slot.result)
  }

  predicate Settled(s: Sys, c: nat)
    requires c in s.calls
  {
    match s.calls[c]
    case Waiting => !s.slot.state.Empty? && s.slot.call == c
    case Declined => RecordOf(s, c) == NEW
    case Withdrawn => RecordOf(s, c) == NEW
    case Finished(r) => RecordOf(s, c) == Record(1, r)
  }

  ghost predicate Inv(s: Sys) {
    && SlotOf(s)
    && (forall c :: c in s.calls ==> Settled(s, c))
    && (forall c :: c !in s.calls ==> RecordOf(s, c) == NEW)
  }

  lemma StepInv(s: Sys, step: Step)
    requires Inv(s) && Enabled(s, step)
    ensures Inv(Apply(s, step))
  {
    var s' := Apply(s, step);
    if step.Leave? {
      assert Settled(s, step.call);
    }
    forall c | c in s'.calls ensures Settled(s', c) {
      if c in s.calls {
        assert Settled(s, c);
      }
    }
    forall c | c !in s'.calls ensures RecordOf(s', c) == NEW {
    }
  }

  ghost predicate Behaves(steps: seq<Step>, trace: seq<Sys>) {
    && |trace| == |steps| + 1 && trace[0] == START
    && forall i :: 0 <= i < |steps| ==> Enabled(trace[i], steps[i]) && trace[i + 1] == Apply(trace[i], steps[i])
  }

  lemma {:induction false} Invariant(steps: seq<Step>, trace: seq<Sys>, i: nat)
    requires Behaves(steps, trace) && i < |trace|
    ensures Inv(trace[i])
    decreases i
  {
    if i > 0 {
      Invariant(steps, trace, i - 1);
      StepInv(trace[i - 1], steps[i - 1]);
    }
  }

  lemma {:induction false} OutcomeStays(steps: seq<Step>, trace: seq<Sys>, i: nat, k: nat, c: nat)
    requires Behaves(steps, trace) && i <= k < |trace|
    requires c in trace[i].calls && !trace[i].calls[c].Waiting?
    ensures c in trace[k].calls && trace[k].calls[c] == trace[i].calls[c]
    decreases k - i
  {
    if i < k {
      OutcomeStays(steps, trace, i, k - 1, c);
      assert Enabled(trace[k - 1], steps[k - 1]) && trace[k] == Apply(trace[k - 1], steps[k - 1]);
    }
  }

  /** A call that returned 0 never ran and never will; one that returned 1 ran
      once, and its result is that run's. */
  lemma ReturnMeans(steps: seq<Step>, trace: seq<Sys>, i: nat, k: nat, c: nat)
    requires Behaves(steps, trace) && i <= k < |trace|
    requires c in trace[i].calls && !trace[i].calls[c].Waiting?
    ensures match trace[i].calls[c]
            case Finished(r) => RecordOf(trace[k], c) == Record(1, r)
            case _ => RecordOf(trace[k], c).runs == 0
  {
    OutcomeStays(steps, trace, i, k, c);
    Invariant(steps, trace, k);
    assert Settled(trace[k], c);
  }

  /** The ctx is borrowed only while its caller waits: whenever the main thread
      is about to use a call, or has used it and not reported back, that call
      has not returned. */
  lemma CtxOutlivesUse(steps: seq<Step>, trace: seq<Sys>, i: nat)
    requires Behaves(steps, trace) && i < |trace| && !trace[i].poll.Idle?
    ensures Waits(trace[i], trace[i].poll.call)
  {
    Invariant(steps, trace, i);
  }

  /** The slot never stays taken: when no call waits it is empty. */
  lemma SlotIsFreed(steps: seq<Step>, trace: seq<Sys>, i: nat)
    requires Behaves(steps, trace) && i < |trace| && forall c :: c in trace[i].calls ==> !Waits(trace[i], c)
    ensures trace[i].slot.state.Empty? && trace[i].poll.Idle?
  {
    Invariant(steps, trace, i);
  }

  /** What a published call can still come to: its caller takes it back, or it runs and its caller gets its result. */
  lemma PublishedGoesOn(steps: seq<Step>, trace: seq<Sys>, i: nat, c: nat, r: int)
    requires Behaves(steps, trace) && i < |trace| && Enabled(trace[i], Publish(c)) && trace[i].slot.state.Empty?
    ensures var s := Apply(trace[i], Publish(c));
            && Waits(s, c) && s.log == trace[i].log && Enabled(s, Take)
            && Apply(s, Leave(c)).calls[c] == Withdrawn && Apply(s, Leave(c)).slot.state.Empty?
            && var t := Apply(s, Take);
               && t.poll == Invoking(c) && Enabled(t, Invoke(r)) && Apply(t, Leave(c)).calls[c] == Waiting
               && var u := Apply(t, Invoke(r));
                  && RecordOf(u, c) == Record(1, r) && Enabled(u, Finish) && Enabled(Apply(u, Finish), Leave(c))
                  && Apply(Apply(u, Finish), Leave(c)).calls[c] == Finished(r)
                  && Apply(Apply(u, Finish), Leave(c)).slot.state.Empty?
  {
    Invariant(steps, trace, i);
    assert RecordOf(trace[i], c) == NEW;
  }

  /** A call that finds the slot in use is declined, and one made on the main thread runs at once. */
  lemma OthersEnd(s: Sys, c: nat, r: int)
    requires Inv(s) && c !in s.calls
    ensures !s.slot.state.Empty? ==> Apply(s, Publish(c)) == s.(calls := s.calls[c := Declined])
    ensures Apply(s, Inline(c, r)) == s.(calls := s.calls[c := Finished(r)], log := s.log[c := Record(1, r)])
  {
  }
}
