/** Crash and restart: which unfinished rows Start picks up again. */
module Recovery {
  import opened Wrappers
  import opened Delivery
  import opened Custody

  ghost predicate AtMostOnce(s: State) { forall id :: Copies(s, id) <= 1 }

  /** Each id is in flight at most once, at every moment of the run. */
  ghost predicate AlwaysAtMostOnce(s: State, steps: seq<Step>)
    requires Runs(s, steps)
    decreases |steps|
  {
    AtMostOnce(s) && (steps != [] ==> AlwaysAtMostOnce(Apply(s, steps[0]), steps[1..]))
  }

  /** Ids in flight, and rows being sent, have no retry time in the future. */
  ghost predicate Ripened(s: State, id: nat) {
    id in s.rows && (Copies(s, id) > 0 || s.rows[id].status == Sending) ==> Ripe(s.rows[id], s.now)
  }

  lemma RipenedStep(s: State, step: Step, id: nat)
    requires Enabled(s, step) && Copies(s, id) <= 1 && Ripened(s, id)
    ensures Ripened(Apply(s, step), id)
  {
    CopiesConserved(s, step, id);
    if Touches(s, step, id) {
      TouchedIsCarried(s, step, id);
      if step.MarkSending? { MarkRipened(s, step, id); }
    } else if id in Apply(s, step).rows && !(step.Create? && step.id == id) {
      RowChange(s, step, id);
      ClockGoesOn(s, step);
    }
  }

  lemma ClockGoesOn(s: State, step: Step)
    requires Enabled(s, step)
    ensures s.now <= Apply(s, step).now
  {
  }

  lemma MarkRipened(s: State, step: Step, id: nat)
    requires Enabled(s, step) && step.MarkSending? && s.workers[step.w].id == id && Ripe(s.rows[id], s.now)
    ensures Ripe(Apply(s, step).rows[id], Apply(s, step).now)
  {
  }

  lemma {:induction false} RipenedRun(s: State, steps: seq<Step>, id: nat)
    requires Runs(s, steps) && AlwaysAtMostOnce(s, steps) && Ripened(s, id)
    ensures Ripened(Run(s, steps), id)
    decreases |steps|
  {
    if steps != [] {
      RipenedStep(s, steps[0], id);
      RipenedRun(Apply(s, steps[0]), steps[1..], id);
    }
  }

  /**
    Crash recovery: if a run kept each id in flight at most once and the process then dies, the
    next Start loses nothing.  Its unfinished rows are the recovered ones and the queued ones
    whose retry time lies ahead, which the scheduler's query selects once that time comes.
    */
  lemma CrashLosesNothing(s: State, steps: seq<Step>, id: nat,
                          order: seq<nat>, maxPerHour: int, workers: nat, restart: int, later: int)
    requires Runs(s, steps) && AlwaysAtMostOnce(s, steps) && Ripened(s, id)
    requires Run(s, steps).now <= restart && RecoveryOrder(Run(s, steps).rows, restart, order)
    requires id in Run(s, steps).rows && Live(Run(s, steps).rows[id].status)
    ensures var row := Run(s, steps).rows[id];
            && NotLost(Boot(Run(s, steps).rows, order, maxPerHour, workers, restart), id)
            && (id in order <==> Ripe(row, restart))
            && (id !in order ==> row.status == Queued && (Due(row, later) <==> row.nextRetry.value <= later))
  {
    RipenedRun(s, steps, id);
    LostAtStart(Run(s, steps).rows, order, maxPerHour, workers, restart, id);
  }

  /**
    The unfinished rows split at Start: each is recovered, or waits for its retry time and is then
    due for the scheduler, or is sending with a retry time ahead, and never two of these.
    */
  lemma StartSplits(rows: map<nat, Row>, order: seq<nat>, now: int, id: nat)
    requires RecoveryOrder(rows, now, order) && id in rows && Live(rows[id].status)
    ensures var row := rows[id];
            var recovered, waiting, stuck := id in order, exists t :: t > now && Due(row, t) && !Due(row, t - 1),
                                             row.status == Sending && !Ripe(row, now);
            (recovered || waiting || stuck) && !(recovered && waiting) && !(recovered && stuck) && !(waiting && stuck)
  {
    var row := rows[id];
    if row.nextRetry.Some? && row.nextRetry.value > now && row.status == Queued {
      assert Due(row, row.nextRetry.value) && !Due(row, row.nextRetry.value - 1);
    }
    if t :| t > now && Due(row, t) && !Due(row, t - 1) {
      assert row.nextRetry.value == t;
    }
  }

  /** A row that Start would leave out of reach. */
  predicate Stuck(s: State, id: nat) { id in s.rows && s.rows[id].status == Sending && !Ripe(s.rows[id], s.now) }

  /** One step puts a row out of a later Start's reach exactly if it marks a row whose retry time lies ahead. */
  lemma StuckBy(s: State, step: Step, id: nat)
    requires Enabled(s, step) && !Stuck(s, id)
    ensures Stuck(Apply(s, step), id)
            <==> step.MarkSending? && s.workers[step.w].id == id && !Ripe(s.rows[id], s.now)
  {
    if id in Apply(s, step).rows && !Touches(s, step, id) && !(step.Create? && step.id == id) {
      RowChange(s, step, id);
      ClockGoesOn(s, step);
    }
  }

  lemma RipenedAtBoot(rows: map<nat, Row>, order: seq<nat>, maxPerHour: int, workers: nat, now: int, id: nat)
    requires RecoveryOrder(rows, now, order)
    ensures Ripened(Boot(rows, order, maxPerHour, workers, now), id)
            <==> !(id in rows && rows[id].status == Sending && !Ripe(rows[id], now))
  {
    BootCopies(rows, order, maxPerHour, workers, now, id);
  }

  // How long a deferred message waits

  const LONGEST_WAIT: nat := 1200

  /** A deferral sets the retry time 5, 10 or 20 minutes ahead, for the first, second and third. */
  lemma BackoffsUsed(row: Row, retries: nat, outcome: Outcome, now: int)
    requires Defers(outcome, retries)
    ensures retries < 3
    ensures AfterSend(row, retries, outcome, now).nextRetry == Some(now + 60 * [5, 10, 20][retries])
  {
    assert Pow2(0) == 1 && Pow2(1) == 2 * Pow2(0) && Pow2(2) == 2 * Pow2(1);
  }

  ghost predicate Near(s: State) {
    forall id :: id in s.rows && s.rows[id].nextRetry.Some? ==> s.rows[id].nextRetry.value <= s.now + LONGEST_WAIT
  }

  lemma NearStep(s: State, step: Step, id: nat)
    requires Near(s) && Enabled(s, step) && id in Apply(s, step).rows && Apply(s, step).rows[id].nextRetry.Some?
    ensures Apply(s, step).rows[id].nextRetry.value <= Apply(s, step).now + LONGEST_WAIT
  {
    ClockGoesOn(s, step);
    if Touches(s, step, id) {
      if step.WriteRow? {
        var Writing(i, retries, outcome) := s.workers[step.w];
        if Defers(outcome, retries) { BackoffsUsed(s.rows[id], retries, outcome, s.now); }
      }
    } else if !(step.Create? && step.id == id) {
      RowChange(s, step, id);
    }
  }

  /** In every interleaving, no message waits more than twenty minutes before it is due again. */
  lemma {:induction false} RetryIsNear(s: State, steps: seq<Step>)
    requires Near(s) && Runs(s, steps)
    ensures Near(Run(s, steps))
    decreases |steps|
  {
    if steps != [] {
      var s' := Apply(s, steps[0]);
      forall id | id in s'.rows && s'.rows[id].nextRetry.Some?
        ensures s'.rows[id].nextRetry.value <= s'.now + LONGEST_WAIT
      {
        NearStep(s, steps[0], id);
      }
      RetryIsNear(s', steps[1..]);
    }
  }

  /** Start pushes the recovered rows before any worker runs, so it returns iff they fit the buffer. */
  method PushRecovered(order: seq<nat>) returns (pending: seq<nat>, blocked: bool)
    ensures blocked <==> |order| > 10_000
    ensures pending == if blocked then order[..CAPACITY] else order
  {
    pending, blocked := [], false;
    for i := 0 to |order|
      invariant !blocked && i <= CAPACITY && pending == order[..i]
    {
      if |pending| == CAPACITY {
        // the send on the full channel waits for a worker, and none is started yet
        return pending, true;
      }
      pending := pending + [order[i]];
    }
  }
}
