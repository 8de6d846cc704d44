/**
 Registering the drain command once (src/backend/apply_engine.c:298, 1667-1687).

 Any number of threads may ask for the command at once. The compare-exchange
 picks one of them to call AddCommand; a caller is told yes only when that call
 has returned.
 */
module CommandSetup {

  /** g_cmd_registered. */
  datatype State = Unset | Busy | Ready

  class Registration {
    var state: State

    constructor ()
      ensures state.Unset?
    {
      state := Unset;
    }

    /** InterlockedCompareExchange(&g_cmd_registered, 1, 0). */
    method Claim() returns (was: State)
      modifies this
      ensures was == old(state) && state == if was.Unset? then Busy else was
    {
      was := state;
      if was.Unset? {
        state := Busy;
      }
    }

    method Publish(added: bool)
      modifies this
      ensures state == if added then Ready else Unset
    {
      state := if added then Ready else Unset;
    }
  }

  /** A caller: it holds the claim, AddCommand has succeeded or failed for it,
      or it has its answer. */
  datatype Call = Claimed | Added | Failed | Answer(ready: bool)

  /** added counts the AddCommand calls that have returned without fault. */
  datatype Sys = Sys(state: State, calls: map<nat, Call>, added: nat)

  datatype Step = Ask(call: nat) | AddCommand(call: nat, ok: bool) | Report(call: nat)

  predicate Enabled(s: Sys, step: Step) {
    match step
    case Ask(c) => c !in s.calls
    case AddCommand(c, _) => c in s.calls && s.calls[c].Claimed?
    case Report(c) => c in s.calls && (s.calls[c].Added? || s.calls[c].Failed?)
  }

  /** AddCommand also fails when what it needs is not bound yet. */
  function Apply(s: Sys, step: Step): Sys
    requires Enabled(s, step)
  {
    match step
    case Ask(c) =>
      if s.state.Unset? then s.(state := Busy, calls := s.calls[c := Claimed])
      else s.(calls := s.calls[c := Answer(s.state.Ready?)])
    case AddCommand(c, ok) =>
      s.(calls := s.calls[c := if ok then Added else Failed], added := if ok then s.added + 1 else s.added)
    case Report(c) =>
      s.(state := if s.calls[c].Added? then Ready else Unset, calls := s.calls[c := Answer(s.calls[c].Added?)])
  }

  const START: Sys := Sys(Unset, map[], 0)

  predicate Works(s: Sys, c: nat) {
    c in s.calls && !s.calls[c].Answer?
  }

  ghost predicate Claimant(s: Sys, c: nat) {
    && Works(s, c) && (forall d :: Works(s, d) ==> d == c)
    && s.added == if s.calls[c].Added? then 1 else 0
  }

  /** One claimant while it is being set up; once ready, one registration. */
  ghost predicate Inv(s: Sys) {
    && (forall c :: c in s.calls && s.calls[c] == Answer(true) ==> s.state.Ready?)
    && match s.state
       case Unset => s.added == 0 && forall c :: !Works(s, c)
       case Busy => exists c :: Claimant(s, c)
       case Ready => s.added == 1 && forall c :: !Works(s, c)
  }

  /** Every step of concurrent first callers keeps the invariant. */
  lemma StepInv(s: Sys, step: Step)
    requires Inv(s) && Enabled(s, step)
    ensures Inv(Apply(s, step))
  {
    var s' := Apply(s, step);
    assert Works(s, step.call) <==> !step.Ask?;
    forall d | Works(s', d) ensures Works(s, d) || (step == Ask(d) && s.state.Unset?) {
    }
    if s.state.Busy? {
      var c :| Claimant(s, c);
      assert step.Report? ==> forall d :: !Works(s', d);
      assert s'.state.Busy? ==> Claimant(s', c);
    } else if s'.state.Busy? {
      assert Claimant(s', step.call);
    }
  }

  ghost predicate Behaves(steps: seq<Step>, trace: seq<Sys>) {
    && |trace| == |steps| + 1 && trace[0] == START
    && forall i :: 0 <= i < |steps| ==> Enabled(trace[i], steps[i]) && trace[i + 1] == Apply(trace[i], steps[i])
  }

  lemma {:induction false} Invariant(steps: seq<Step>, trace: seq<Sys>, i: nat)
    requires Behaves(steps, trace) && i < |trace|
    ensures Inv(trace[i])
    decreases i
  {
    if i > 0 {
      Invariant(steps, trace, i - 1);
      StepInv(trace[i - 1], steps[i - 1]);
    }
  }

  lemma {:induction false} ReadyStays(steps: seq<Step>, trace: seq<Sys>, i: nat, k: nat)
    requires Behaves(steps, trace) && i <= k < |trace| && trace[i].state.Ready?
    ensures trace[k].state.Ready?
    decreases k - i
  {
    if i < k {
      ReadyStays(steps, trace, i, k - 1);
      Invariant(steps, trace, k - 1);
      assert steps[k - 1].Report? ==> Works(trace[k - 1], steps[k - 1].call);
    }
  }

  /** In every interleaving a caller told yes may rely on it for ever: AddCommand
      has returned, and it has done so only once. */
  lemma ReadyMeans(steps: seq<Step>, trace: seq<Sys>, i: nat, k: nat, c: nat)
    requires Behaves(steps, trace) && i <= k < |trace|
    requires c in trace[i].calls && trace[i].calls[c] == Answer(true)
    ensures trace[k].added == 1 && trace[k].state.Ready?
  {
    Invariant(steps, trace, i);
    ReadyStays(steps, trace, i, k);
    Invariant(steps, trace, k);
  }

  /** AddCommand never runs for two callers at once, nor again after success. */
  lemma OneAtATime(steps: seq<Step>, trace: seq<Sys>, i: nat, c: nat, d: nat)
    requires Behaves(steps, trace) && i < |trace| && Works(trace[i], c)
    ensures trace[i].state.Busy? && (Works(trace[i], d) ==> d == c)
    ensures trace[i].calls[c].Claimed? ==> trace[i].added == 0
  {
    Invariant(steps, trace, i);
    if trace[i].state.Busy? {
      var e :| Claimant(trace[i], e);
    }
  }

  /** What a caller is told: yes once the command is ready, no while another sets it up; the first to ask tries, and its
      own answer and everybody's next one is what came of that. */
  lemma AskMeans(steps: seq<Step>, trace: seq<Sys>, i: nat, c: nat, ok: bool)
    requires Behaves(steps, trace) && i < |trace| && Enabled(trace[i], Ask(c))
    ensures var s := Apply(trace[i], Ask(c));
            && (trace[i].added == 1 && !(exists d :: Works(trace[i], d)) ==> s.calls[c] == Answer(true))
            && ((exists d :: Works(trace[i], d)) ==> s.calls[c] == Answer(false))
            && (trace[i].added == 0 && !(exists d :: Works(trace[i], d)) ==>
                  && Enabled(s, AddCommand(c, ok)) && Enabled(Apply(s, AddCommand(c, ok)), Report(c))
                  && var t := Apply(Apply(s, AddCommand(c, ok)), Report(c));
                     t.calls[c] == Answer(ok) && (t.state.Ready? <==> ok) && (t.state.Unset? <==> !ok))
  {
    Invariant(steps, trace, i);
    if trace[i].state.Busy? {
      var d :| Claimant(trace[i], d);
      assert Works(trace[i], d);
    }
  }
}
