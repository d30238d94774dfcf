/**
  The queue composed with Send as written.  Send re-wraps its last failure, so process never sees
  an *SMTPError: nothing is ever deferred or suppressed.
  */
module Composition {
  import opened Wrappers
  import opened Tally
  import opened Delivery
  import opened Custody
  import opened History
  import Sender

  /** The outcome of some call of Send. */
  ghost predicate FromSend(outcome: Outcome) {
    exists to, mx, net :: outcome == Sender.OutcomeOf(Sender.SendResult(to, mx, net))
  }

  /** What a call of Send can tell process: success or an unclassified failure, never an *SMTPError. */
  lemma SendHidesSmtpErrors(outcome: Outcome)
    ensures FromSend(outcome) <==> outcome == Ok || outcome == Other
  {
    var fine: Sender.Network := (i, host) => Sender.Dialogue(None, None, None, None, None, None, None, None, None);
    assert Sender.Works(Sender.Targets("@", None), fine, 0);
    assert Sender.OutcomeOf(Sender.SendResult("@", None, fine)) == Ok;
    assert Sender.OutcomeOf(Sender.SendResult("", None, fine)) == Other;
  }

  ghost predicate AsWritten(step: Step) { step.Transmit? ==> FromSend(step.outcome) }

  predicate Unclassified(phase: Phase) {
    phase.Writing? || phase.Recording? ==> phase.outcome == Ok || phase.outcome == Other
  }

  ghost predicate Unretried(s: State) {
    && s.suppressions == [] && s.batch == []
    && (forall id :: id in s.rows ==> s.rows[id].retries == 0 && s.rows[id].nextRetry.None?)
    && (forall w :: 0 <= w < |s.workers| ==> Unclassified(s.workers[w]))
  }

  lemma SelectedHasRetry(s: State, rows: seq<nat>)
    requires rows != [] && QueryResult(s, rows)
    ensures rows[0] in s.rows && s.rows[rows[0]].nextRetry.Some?
  {
  }

  lemma NothingDue(s: State, rows: seq<nat>)
    requires Unretried(s) && QueryResult(s, rows)
    ensures rows == []
  {
    if rows != [] {
      SelectedHasRetry(s, rows);
    }
  }

  lemma UnretriedRows(s: State, step: Step, id: nat)
    requires Unretried(s) && Enabled(s, step) && AsWritten(step) && id in Apply(s, step).rows
    ensures var row := Apply(s, step).rows[id]; row.retries == 0 && row.nextRetry.None?
  {
  }

  lemma UnretriedWorker(s: State, step: Step)
    requires Unretried(s) && Enabled(s, step) && AsWritten(step) && Actor(step).Some?
    ensures Unclassified(Apply(s, step).workers[Actor(step).value])
    ensures Apply(s, step).suppressions == [] && Apply(s, step).batch == []
  {
    if step.Transmit? { SendHidesSmtpErrors(step.outcome); }
  }

  lemma UnretriedStep(s: State, step: Step)
    requires Unretried(s) && Enabled(s, step) && AsWritten(step)
    ensures Unretried(Apply(s, step))
  {
    ActorMoves(s, step);
    forall id | id in Apply(s, step).rows
      ensures Apply(s, step).rows[id].retries == 0 && Apply(s, step).rows[id].nextRetry.None?
    {
      UnretriedRows(s, step, id);
    }
    if Actor(step).Some? {
      UnretriedWorker(s, step);
    } else if step.Query? {
      NothingDue(s, step.rows);
    }
  }

  // Each created message is one copy: unsent, or sent once

  function UnsentBit(phase: Phase, id: nat): nat { if Carries(phase, id) && !phase.Writing? then 1 else 0 }
  ghost function UnsentBy(id: nat): Phase -> nat { (phase: Phase) => UnsentBit(phase, id) }

  ghost function Chances(s: State, id: nat): nat {
    Loose(s, id) + Sum(s.workers, UnsentBy(id)) + |OutcomesOf(s.calls, id)|
  }

  lemma ChancesMove(s: State, step: Step, id: nat)
    requires Enabled(s, step) && Actor(step).Some?
    ensures var s' := Apply(s, step); var w := Actor(step).value;
            Loose(s', id) + UnsentBit(s'.workers[w], id) + |OutcomesOf(s'.calls, id)|
            <= Loose(s, id) + UnsentBit(s.workers[w], id) + |OutcomesOf(s.calls, id)|
  {
    var s' := Apply(s, step);
    LooseMove(s, step, id);
    if step.Transmit? {
      OutcomesAppend(s.calls, s.workers[step.w].id, step.outcome, id);
    } else {
      assert s'.calls == s.calls;
    }
  }

  lemma ChancesStep(s: State, step: Step, id: nat)
    requires Enabled(s, step)
    ensures Chances(Apply(s, step), id) <= Chances(s, id) + Born(step, id)
  {
    ActorMoves(s, step);
    if Actor(step).Some? {
      var w := Actor(step).value;
      SumUpdate(s.workers, UnsentBy(id), w, Apply(s, step).workers[w]);
      ChancesMove(s, step, id);
    } else {
      LooseArrivals(s, step, id);
    }
  }

  ghost predicate OneChance(s: State, id: nat) { Chances(s, id) <= if id in s.rows then 1 else 0 }

  lemma OneChanceStep(s: State, step: Step, id: nat)
    requires Unretried(s) && OneChance(s, id) && Enabled(s, step)
    ensures OneChance(Apply(s, step), id)
  {
    ChancesStep(s, step, id);
    if step.Query? {
      NothingDue(s, step.rows);
    }
    RowsGrow(s, step, id);
  }

  lemma RowsGrow(s: State, step: Step, id: nat)
    requires Enabled(s, step)
    ensures id in Apply(s, step).rows <==> id in s.rows || (step.Create? && step.id == id)
  {
  }

  lemma {:induction false} ComposedRun(s: State, steps: seq<Step>, id: nat)
    requires Unretried(s) && OneChance(s, id)
    requires Runs(s, steps) && forall i :: 0 <= i < |steps| ==> AsWritten(steps[i])
    ensures Unretried(Run(s, steps)) && OneChance(Run(s, steps), id)
    decreases |steps|
  {
    if steps != [] {
      assert AsWritten(steps[0]);
      UnretriedStep(s, steps[0]);
      OneChanceStep(s, steps[0], id);
      assert forall i :: 0 <= i < |steps[1..]| ==> steps[1..][i] == steps[i + 1];
      ComposedRun(Apply(s, steps[0]), steps[1..], id);
    }
  }

  lemma {:induction false} NoUnsent(n: nat, id: nat)
    ensures Sum(seq(n, i => Idle), UnsentBy(id)) == 0
  {
    if n > 0 {
      assert seq(n, i => Idle)[1..] == seq(n - 1, i => Idle);
      NoUnsent(n - 1, id);
    }
  }

  /**
    Composed with Send as written, in every interleaving of any number of workers: a message gets
    at most one attempt, its retries stay 0, and no suppression row is ever added.
    */
  lemma OneAttemptAsWritten(maxPerHour: int, workers: nat, now: int, steps: seq<Step>, id: nat)
    requires Runs(Boot(map[], [], maxPerHour, workers, now), steps)
    requires forall i :: 0 <= i < |steps| ==> AsWritten(steps[i])
    ensures var s := Run(Boot(map[], [], maxPerHour, workers, now), steps);
            && |OutcomesOf(s.calls, id)| <= 1
            && s.suppressions == []
            && (id in s.rows ==> s.rows[id].retries == 0 && s.rows[id].nextRetry.None?)
  {
    NoUnsent(workers, id);
    ComposedRun(Boot(map[], [], maxPerHour, workers, now), steps, id);
  }
}
