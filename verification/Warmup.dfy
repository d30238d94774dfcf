/** The warm-up limiter: how many messages leave per hour, whatever the interleaving. */
module Warmup {
  import opened Tally
  import opened Delivery

  /** Past the limiter and still able to add to the counter. */
  predicate Admitted(phase: Phase) {
    phase.Reading? || phase.Marking? || phase.Transmitting? || phase.Counting?
    || ((phase.Writing? || phase.Recording?) && phase.outcome == Ok)
  }

  /** Sent successfully, counter not yet incremented. */
  predicate Uncounted(phase: Phase) {
    phase.Counting? || ((phase.Writing? || phase.Recording?) && phase.outcome == Ok)
  }

  function AdmittedBit(phase: Phase): nat { if Admitted(phase) then 1 else 0 }
  function UncountedBit(phase: Phase): nat { if Uncounted(phase) then 1 else 0 }
  ghost function IsAdmitted(): Phase -> nat { (phase: Phase) => AdmittedBit(phase) }
  ghost function IsUncounted(): Phase -> nat { (phase: Phase) => UncountedBit(phase) }
  ghost function Itself(): nat -> nat { (n: nat) => n }

  ghost function InFlight(s: State): nat { Sum(s.workers, IsAdmitted()) }
  ghost function Pending(s: State): nat { Sum(s.workers, IsUncounted()) }
  ghost function Resets(s: State): nat { Sum(s.zeroed, Itself()) }

  function Successes(calls: seq<(nat, Outcome)>): nat {
    if calls == [] then 0 else Successes(calls[..|calls| - 1]) + if calls[|calls| - 1].1 == Ok then 1 else 0
  }

  /** The most the counter can reach between two resets: one below the limit, plus every worker. */
  ghost function Ceiling(s: State): int { s.maxPerHour + |s.workers| - 1 }

  /** Hours, as recorded by a worker's own resets, never run ahead of the clock. */
  ghost predicate ResetPaced(s: State, w: nat)
    requires w < |s.workers| == |s.zeroed|
  {
    match s.workers[w]
    case Zeroing(_) => HOUR * (s.zeroed[w] + 1) <= s.now - s.started
    case Stamping(_) => HOUR * s.zeroed[w] <= s.now - s.started
    case _ => HOUR * s.zeroed[w] <= s.lastReset - s.started
  }

  ghost predicate Shaped(s: State) {
    && s.maxPerHour > 0
    && |s.workers| == |s.zeroed| > 0
    && s.started <= s.lastReset <= s.now
  }

  ghost predicate Counted(s: State) {
    && 0 <= s.sentCount
    && s.sentCount + InFlight(s) <= Ceiling(s)
    && Successes(s.calls) == s.added + Pending(s)
  }

  /** The increments so far fit in one ceiling per reset, plus what the counter shows now. */
  ghost predicate Budgeted(s: State) { s.added <= Resets(s) * Ceiling(s) + s.sentCount }

  ghost predicate Paced(s: State)
    requires |s.workers| == |s.zeroed|
  {
    forall w :: 0 <= w < |s.workers| ==> ResetPaced(s, w)
  }

  ghost predicate Limited(s: State) { Shaped(s) && Counted(s) && Budgeted(s) && Paced(s) }

  lemma SuccessesAppend(calls: seq<(nat, Outcome)>, id: nat, outcome: Outcome)
    ensures Successes(calls + [(id, outcome)]) == Successes(calls) + if outcome == Ok then 1 else 0
  {
    assert (calls + [(id, outcome)])[..|calls|] == calls;
  }

  lemma MoveWorker(s: State, w: nat, phase: Phase)
    requires w < |s.workers|
    ensures Sum(s.workers[w := phase], IsAdmitted()) == InFlight(s) - AdmittedBit(s.workers[w]) + AdmittedBit(phase)
    ensures Sum(s.workers[w := phase], IsUncounted()) == Pending(s) - UncountedBit(s.workers[w]) + UncountedBit(phase)
  {
    SumUpdate(s.workers, IsAdmitted(), w, phase);
    SumUpdate(s.workers, IsUncounted(), w, phase);
  }

  /** A worker not yet admitted leaves room for itself among the admitted ones. */
  lemma RoomForOne(s: State, w: nat)
    requires w < |s.workers| && !Admitted(s.workers[w])
    ensures InFlight(s) <= |s.workers| - 1
  {
    MoveWorker(s, w, Counting(0));
    SumBounded(s.workers[w := Counting(0)], IsAdmitted(), 1);
  }

  lemma Distribute(r: nat, c: int)
    ensures (r + 1) * c == r * c + c
  {
  }

  lemma PacedStep(s: State, step: Step, w: nat)
    requires Shaped(s) && Paced(s) && Enabled(s, step) && w < |s.workers|
    ensures Shaped(Apply(s, step)) && ResetPaced(Apply(s, step), w)
  {
    assert ResetPaced(s, w);
  }

  /** What one step of a worker does to the counter and to that worker's place among the admitted. */
  lemma CounterMove(s: State, step: Step)
    requires Shaped(s) && Enabled(s, step) && Actor(step).Some?
    ensures var s' := Apply(s, step); var w := Actor(step).value;
            var before, after := AdmittedBit(s.workers[w]), AdmittedBit(s'.workers[w]);
            || (s'.sentCount == 0 && after == before)
            || (s'.sentCount == s.sentCount && after <= before)
            || (s'.sentCount == s.sentCount < s.maxPerHour && before == 0)
            || (s'.sentCount == s.sentCount + 1 && before == 1 && after == 0)
  {
  }

  lemma InFlightStep(s: State, step: Step)
    requires Shaped(s) && Counted(s) && Enabled(s, step)
    ensures var s' := Apply(s, step); 0 <= s'.sentCount && s'.sentCount + InFlight(s') <= Ceiling(s')
  {
    ActorMoves(s, step);
    if Actor(step).Some? {
      var w := Actor(step).value;
      CounterMove(s, step);
      MoveWorker(s, w, Apply(s, step).workers[w]);
      if !Admitted(s.workers[w]) { RoomForOne(s, w); }
    }
  }

  lemma UncountedMove(s: State, step: Step)
    requires Enabled(s, step) && Actor(step).Some?
    ensures var s' := Apply(s, step); var w := Actor(step).value;
            s'.added - s.added == UncountedBit(s.workers[w]) - UncountedBit(s'.workers[w])
                                  + if step.Transmit? && step.outcome == Ok then 1 else 0
  {
  }

  lemma SuccessesStep(s: State, step: Step)
    requires Shaped(s) && Counted(s) && Enabled(s, step)
    ensures var s' := Apply(s, step); Successes(s'.calls) == s'.added + Pending(s')
  {
    var s' := Apply(s, step);
    ActorMoves(s, step);
    if Actor(step).Some? {
      var w := Actor(step).value;
      MoveWorker(s, w, s'.workers[w]);
      UncountedMove(s, step);
    }
    if step.Transmit? {
      SuccessesAppend(s.calls, s.workers[step.w].id, step.outcome);
    } else {
      assert s'.calls == s.calls;
    }
  }

  lemma BudgetedStep(s: State, step: Step)
    requires Shaped(s) && Counted(s) && Budgeted(s) && Enabled(s, step)
    ensures Budgeted(Apply(s, step))
  {
    var s' := Apply(s, step);
    assert Ceiling(s') == Ceiling(s);
    if step.StoreZero? {
      SumUpdate(s.zeroed, Itself(), step.w, s.zeroed[step.w] + 1);
      Distribute(Resets(s), Ceiling(s));
    } else {
      assert s'.zeroed == s.zeroed && s'.added - s'.sentCount == s.added - s.sentCount;
    }
  }

  lemma LimitedStep(s: State, step: Step)
    requires Limited(s) && Enabled(s, step)
    ensures Limited(Apply(s, step))
  {
    InFlightStep(s, step);
    SuccessesStep(s, step);
    BudgetedStep(s, step);
    PacedStep(s, step, 0);
    forall w | 0 <= w < |s.workers| ensures ResetPaced(Apply(s, step), w) { PacedStep(s, step, w); }
  }

  lemma {:induction false} LimitedRun(s: State, steps: seq<Step>)
    requires Limited(s) && Runs(s, steps)
    ensures Limited(Run(s, steps))
    ensures Run(s, steps).maxPerHour == s.maxPerHour && |Run(s, steps).workers| == |s.workers|
    ensures Run(s, steps).started == s.started
    decreases |steps|
  {
    if steps != [] {
      LimitedStep(s, steps[0]);
      LimitedRun(Apply(s, steps[0]), steps[1..]);
    }
  }

  lemma {:induction false} ZeroSum<T>(xs: seq<T>, f: T -> nat)
    requires forall i :: 0 <= i < |xs| ==> f(xs[i]) == 0
    ensures Sum(xs, f) == 0
  {
    if xs != [] {
      assert forall i :: 0 <= i < |xs[1..]| ==> xs[1..][i] == xs[i + 1];
      ZeroSum(xs[1..], f);
    }
  }

  lemma LimitedBoot(rows: map<nat, Row>, order: seq<nat>, maxPerHour: int, workers: nat, now: int)
    requires maxPerHour > 0 && workers > 0
    ensures Limited(Boot(rows, order, maxPerHour, workers, now))
  {
    var s := Boot(rows, order, maxPerHour, workers, now);
    ZeroSum(s.workers, IsAdmitted());
    ZeroSum(s.workers, IsUncounted());
    ZeroSum(s.zeroed, Itself());
  }

  /**
    In every interleaving, the counter plus the workers that may still add to it stay below the
    limit plus the number of workers; with one worker the counter never passes the limit.
    */
  lemma WarmupBoundUnderRaces(rows: map<nat, Row>, order: seq<nat>, maxPerHour: int, workers: nat, now: int, steps: seq<Step>)
    requires maxPerHour > 0 && workers > 0
    requires Runs(Boot(rows, order, maxPerHour, workers, now), steps)
    ensures var s := Run(Boot(rows, order, maxPerHour, workers, now), steps);
            && s.sentCount + InFlight(s) <= maxPerHour + workers - 1
            && (workers == 1 ==> s.sentCount <= maxPerHour)
            && Successes(s.calls) <= (Resets(s) + 1) * (maxPerHour + workers - 1)
  {
    LimitedBoot(rows, order, maxPerHour, workers, now);
    LimitedRun(Boot(rows, order, maxPerHour, workers, now), steps);
    TotalBound(Run(Boot(rows, order, maxPerHour, workers, now), steps));
  }

  lemma TotalBound(s: State)
    requires Limited(s)
    ensures Successes(s.calls) <= (Resets(s) + 1) * Ceiling(s)
  {
    Distribute(Resets(s), Ceiling(s));
    UncountedAreAdmitted(s.workers);
  }

  lemma {:induction false} UncountedAreAdmitted(workers: seq<Phase>)
    ensures Sum(workers, IsUncounted()) <= Sum(workers, IsAdmitted())
  {
    if workers != [] {
      UncountedAreAdmitted(workers[1..]);
    }
  }

  lemma MulMono(a: nat, b: nat, c: nat)
    requires a <= b
    ensures a * c <= b * c
  {
  }

  /** Each worker's resets lie more than an hour apart, so the hours elapsed bound them. */
  lemma ResetsByTheHour(s: State)
    requires Limited(s)
    ensures Resets(s) <= |s.workers| * ((s.now - s.started) / 3600)
  {
    var hours := (s.now - s.started) / HOUR;
    forall w | 0 <= w < |s.zeroed| ensures Itself()(s.zeroed[w]) <= hours {
      assert ResetPaced(s, w);
      assert HOUR * s.zeroed[w] <= s.now - s.started;
    }
    SumBounded(s.zeroed, Itself(), hours);
  }

  /**
    The hourly limit in real time: each worker can reset the counter at most once per elapsed
    hour, so a run of h full hours sends at most (workers * h + 1) * (maxPerHour + workers - 1)
    messages, and with one worker at most (h + 1) * maxPerHour.
    */
  lemma HourlyBound(rows: map<nat, Row>, order: seq<nat>, maxPerHour: int, workers: nat, now: int, steps: seq<Step>)
    requires maxPerHour > 0 && workers > 0
    requires Runs(Boot(rows, order, maxPerHour, workers, now), steps)
    ensures var s := Run(Boot(rows, order, maxPerHour, workers, now), steps);
            Successes(s.calls) <= (workers * ((s.now - now) / 3600) + 1) * (maxPerHour + workers - 1)
  {
    WarmupBoundUnderRaces(rows, order, maxPerHour, workers, now, steps);
    LimitedBoot(rows, order, maxPerHour, workers, now);
    LimitedRun(Boot(rows, order, maxPerHour, workers, now), steps);
    var s := Run(Boot(rows, order, maxPerHour, workers, now), steps);
    ResetsByTheHour(s);
    MulMono(Resets(s) + 1, workers * ((s.now - now) / HOUR) + 1, maxPerHour + workers - 1);
  }
}
