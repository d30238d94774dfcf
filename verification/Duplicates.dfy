/**
  When an id is in flight twice.  The scheduler selects a due row on every tick until a worker marks
  it.  One worker still sends each message at most once; two can send it twice; and even one can
  leave it out of a later Start's reach.
  */
module Duplicates {
  import opened Wrappers
  import opened Delivery
  import opened Custody
  import opened Serial
  import opened History

  // One worker, in every interleaving with handlers, sleepers and the scheduler

  /** The log and sends of a message agree with its row, once the sole worker's own progress is allowed for. */
  predicate Tracked(s: State, id: nat)
    requires |s.workers| == 1
  {
    var log, outcomes := Log(s.events, id), OutcomesOf(s.calls, id);
    match s.workers[0]
    case Marking(i, retries) =>
      Faithful(s, id) && (i == id ==> id in s.rows && s.rows[id].retries == retries && !Processed(s.rows[id].status))
    case Transmitting(i, retries) =>
      if i != id then Faithful(s, id)
      else id in s.rows && s.rows[id].retries == retries && Agrees(s.rows[id].(status := Queued), Replay(log), outcomes)
    case Writing(i, retries, outcome) =>
      if i != id then Faithful(s, id)
      else && id in s.rows
           && Agrees(AfterSend(s.rows[id], retries, outcome, s.now), Replay(LogWith(log, retries, outcome)), outcomes)
    case Recording(i, retries, outcome) =>
      if i != id then Faithful(s, id)
      else id in s.rows && Agrees(s.rows[id], Replay(LogWith(log, retries, outcome)), outcomes)
    case _ => Faithful(s, id)
  }

  lemma TrackedOutside(s: State, step: Step, id: nat)
    requires |s.workers| == 1 && Tracked(s, id) && Enabled(s, step) && Actor(step).None? && !step.Create?
    ensures |Apply(s, step).workers| == 1 && Tracked(Apply(s, step), id)
  {
    OutsideEffect(s, step);
    ActorMoves(s, step);
  }

  lemma TrackedCreate(s: State, step: Step, id: nat)
    requires |s.workers| == 1 && Tracked(s, id) && Enabled(s, step) && step.Create?
    ensures |Apply(s, step).workers| == 1 && Tracked(Apply(s, step), id)
  {
    LogAppend(s.events, Event(step.id, QueuedEvent), id);
    ActorMoves(s, step);
    if Faithful(s, id) { CreateFaithful(s, step, id); }
  }

  /** The steps of the worker before it sends. */
  lemma TrackedBefore(s: State, step: Step, id: nat)
    requires |s.workers| == 1 && Tracked(s, id) && Enabled(s, step) && Actor(step).Some?
    requires !step.Transmit? && !step.WriteRow? && !step.Record?
    ensures |Apply(s, step).workers| == 1 && Tracked(Apply(s, step), id)
  {
    ActorMoves(s, step);
  }

  lemma TrackedSend(s: State, step: Step, id: nat)
    requires |s.workers| == 1 && Tracked(s, id) && Enabled(s, step) && step.Transmit?
    ensures |Apply(s, step).workers| == 1 && Tracked(Apply(s, step), id)
  {
    var Transmitting(i, retries) := s.workers[0];
    OutcomesAppend(s.calls, i, step.outcome, id);
    if i == id {
      var row := s.rows[id].(status := Queued);
      AgreesAfter(row, Replay(Log(s.events, id)), OutcomesOf(s.calls, id), step.outcome, s.now);
      ReplayWith(Log(s.events, id), retries, step.outcome);
    }
  }

  lemma TrackedWrite(s: State, step: Step, id: nat)
    requires |s.workers| == 1 && Tracked(s, id) && Enabled(s, step) && (step.WriteRow? || step.Record?)
    ensures |Apply(s, step).workers| == 1 && Tracked(Apply(s, step), id)
  {
    if step.Record? {
      var Recording(i, retries, outcome) := s.workers[0];
      LogAfter(s.events, i, retries, outcome, id);
    }
  }

  lemma TrackedStep(s: State, step: Step, id: nat)
    requires |s.workers| == 1 && Tracked(s, id) && Enabled(s, step)
    ensures |Apply(s, step).workers| == 1 && Tracked(Apply(s, step), id)
  {
    if step.Create? {
      TrackedCreate(s, step, id);
    } else if Actor(step).None? {
      TrackedOutside(s, step, id);
    } else if step.Transmit? {
      TrackedSend(s, step, id);
    } else if step.WriteRow? || step.Record? {
      TrackedWrite(s, step, id);
    } else {
      TrackedBefore(s, step, id);
    }
  }

  lemma {:induction false} TrackedRun(s: State, steps: seq<Step>, id: nat)
    requires |s.workers| == 1 && Tracked(s, id) && Runs(s, steps)
    ensures |Run(s, steps).workers| == 1 && Tracked(Run(s, steps), id)
    decreases |steps|
  {
    if steps != [] {
      TrackedStep(s, steps[0], id);
      TrackedRun(Apply(s, steps[0]), steps[1..], id);
    }
  }

  lemma TrackedBounds(s: State, id: nat)
    requires |s.workers| == 1 && Tracked(s, id)
    ensures |OutcomesOf(s.calls, id)| <= MAX_RETRIES + 1 && Wins(OutcomesOf(s.calls, id)) <= 1
  {
    var log, outcomes := Log(s.events, id), OutcomesOf(s.calls, id);
    match s.workers[0]
    case Transmitting(i, retries) =>
      if i == id { AgreesBounds(s.rows[id].(status := Queued), Replay(log), outcomes); } else { FaithfulBounds(s, id); }
    case Writing(i, retries, outcome) =>
      if i == id {
        AgreesBounds(AfterSend(s.rows[id], retries, outcome, s.now), Replay(LogWith(log, retries, outcome)), outcomes);
      } else {
        FaithfulBounds(s, id);
      }
    case Recording(i, retries, outcome) =>
      if i == id { AgreesBounds(s.rows[id], Replay(LogWith(log, retries, outcome)), outcomes); } else { FaithfulBounds(s, id); }
    case _ => FaithfulBounds(s, id);
  }

  lemma FaithfulBounds(s: State, id: nat)
    requires Faithful(s, id)
    ensures |OutcomesOf(s.calls, id)| <= MAX_RETRIES + 1 && Wins(OutcomesOf(s.calls, id)) <= 1
  {
    if id in s.rows { AgreesBounds(s.rows[id], Replay(Log(s.events, id)), OutcomesOf(s.calls, id)); }
  }

  /**
    One worker is enough for safety: in every interleaving with everything else, however many
    duplicates the channel holds, a message gets at most four sends and at most one success, and
    while the worker is idle its row is the replay of its log.
    */
  lemma OneWorkerAtMostOnce(maxPerHour: int, now: int, steps: seq<Step>, id: nat)
    requires Runs(Boot(map[], [], maxPerHour, 1, now), steps)
    ensures var s := Run(Boot(map[], [], maxPerHour, 1, now), steps);
            && |OutcomesOf(s.calls, id)| <= 4
            && Wins(OutcomesOf(s.calls, id)) <= 1
            && |s.workers| == 1 && (s.workers[0].Idle? ==> Faithful(s, id))
  {
    var s := Boot(map[], [], maxPerHour, 1, now);
    TrackedRun(s, steps, id);
    TrackedBounds(Run(s, steps), id);
  }

  lemma {:induction false} NoWorkerNoSends(s: State, steps: seq<Step>)
    requires s.workers == [] && s.calls == [] && Runs(s, steps)
    ensures Run(s, steps).calls == []
    decreases |steps|
  {
    if steps != [] {
      ActorMoves(s, steps[0]);
      NoWorkerNoSends(Apply(s, steps[0]), steps[1..]);
    }
  }

  // Two workers or more

  function Idles(n: nat): seq<Phase> { seq(n, i => Idle) }

  function Deferred(now: int): Row { Row("u", "a@b", Queued, 1, Some(now + 300), None) }

  /** The parts of a state that the runs below have in common. */
  predicate Quiet(s: State, maxPerHour: int, workers: nat, now: int) {
    && s.maxPerHour == maxPerHour && |s.workers| == workers && s.zeroed == seq(workers, i => 0)
    && s.batch == [] && s.sentCount == 0 && s.lastReset == now
  }

  lemma NewMessage(maxPerHour: int, workers: nat, now: int) returns (s: State)
    ensures var boot := Boot(map[], [], maxPerHour, workers, now);
            && Leads(boot, s)
            && s.(events := []) == boot.(rows := map[0 := Row("u", "a@b", Queued, 0, None, None)], pending := [0])
  {
    var boot := Boot(map[], [], maxPerHour, workers, now);
    Here(boot);
    s := Then(boot, boot, Create(0, "u", "a@b", true));
    s := Then(boot, s, Enqueue(0));
  }

  lemma DeferredOnce(maxPerHour: int, workers: nat, now: int) returns (s: State)
    requires workers > 0
    ensures Leads(Boot(map[], [], maxPerHour, workers, now), s) && Quiet(s, maxPerHour, workers, now)
    ensures s.workers == Idles(workers) && s.pending == [] && s.now == now
    ensures s.rows == map[0 := Deferred(now)] && s.calls == [(0, Smtp(false))]
  {
    var boot := Boot(map[], [], maxPerHour, workers, now);
    assert Backoff(0) == 300;
    var t := NewMessage(maxPerHour, workers, now);
    s := ProcessHead(t, 0, Smtp(false), 0);
    ProcessIsAStretch(t, 0, Smtp(false), 0);
    LeadsOn(boot, t, s);
  }

  lemma QueuedOnce(maxPerHour: int, workers: nat, now: int) returns (s: State)
    requires workers > 0
    ensures Leads(Boot(map[], [], maxPerHour, workers, now), s) && Quiet(s, maxPerHour, workers, now)
    ensures s.workers == Idles(workers) && s.pending == [0] && s.now == now + 300
    ensures s.rows == map[0 := Deferred(now)] && s.calls == [(0, Smtp(false))]
  {
    var boot := Boot(map[], [], maxPerHour, workers, now);
    s := DeferredOnce(maxPerHour, workers, now);
    s := Then(boot, s, Tick(300));
    s := Then(boot, s, Query([0]));
    s := Then(boot, s, Push);
  }

  /** A message deferred once, then selected by two ticks of the scheduler before a worker is free. */
  lemma QueuedTwice(maxPerHour: int, workers: nat, now: int) returns (s: State)
    requires workers > 0
    ensures Leads(Boot(map[], [], maxPerHour, workers, now), s) && Quiet(s, maxPerHour, workers, now)
    ensures s.workers == Idles(workers) && s.pending == [0, 0] && s.now == now + 300
    ensures s.rows == map[0 := Deferred(now)] && s.calls == [(0, Smtp(false))]
  {
    var boot := Boot(map[], [], maxPerHour, workers, now);
    s := QueuedOnce(maxPerHour, workers, now);
    s := Then(boot, s, Query([0]));
    s := Then(boot, s, Push);
  }

  /** An idle worker takes the head of the channel past the limiter and reads its row. */
  lemma Takes(boot: State, s: State, w: nat, maxPerHour: int, workers: nat, now: int) returns (t: State)
    requires Leads(boot, s) && Quiet(s, maxPerHour, workers, now) && s.now - now <= HOUR
    requires w < |s.workers| && s.workers[w].Idle? && s.pending != []
    requires s.pending[0] in s.rows && !Processed(s.rows[s.pending[0]].status)
    ensures Leads(boot, t)
    ensures t == Go(s.(pending := s.pending[1..]), w, Marking(s.pending[0], s.rows[s.pending[0]].retries))
  {
    t := AdmittedRuns(s, w);
    LeadsOn(boot, s, t);
    t := Then(boot, t, ReadRow(w));
  }

  /** Both workers have read the row as queued and are about to mark it. */
  lemma BothHold(maxPerHour: int, workers: nat, now: int) returns (s: State)
    requires workers >= 2
    ensures Leads(Boot(map[], [], maxPerHour, workers, now), s) && |s.workers| == workers
    ensures s.workers[0] == Marking(0, 1) && s.workers[1] == Marking(0, 1) && s.now == now + 300
    ensures s.rows == map[0 := Deferred(now)] && s.calls == [(0, Smtp(false))]
  {
    var boot := Boot(map[], [], maxPerHour, workers, now);
    s := QueuedTwice(maxPerHour, workers, now);
    s := Takes(boot, s, 0, maxPerHour, workers, now);
    s := Takes(boot, s, 1, maxPerHour, workers, now);
  }

  /** One worker has sent and written its result while the other still holds its stale read. */
  lemma FirstWrites(maxPerHour: int, workers: nat, now: int) returns (s: State)
    requires workers >= 2
    ensures Leads(Boot(map[], [], maxPerHour, workers, now), s) && |s.workers| == workers
    ensures s.workers[1] == Marking(0, 1)
    ensures s.rows == map[0 := AfterSend(Deferred(now), 1, Ok, now + 300)] && s.calls == [(0, Smtp(false)), (0, Ok)]
  {
    var boot := Boot(map[], [], maxPerHour, workers, now);
    s := BothHold(maxPerHour, workers, now);
    s := Then(boot, s, MarkSending(0));
    s := Then(boot, s, Transmit(0, Ok));
    s := Then(boot, s, WriteRow(0));
  }

  /** With two workers or more, at any limit, a message can be sent twice, and a sent row can go back to sending. */
  lemma SentTwice(maxPerHour: int, workers: nat, now: int) returns (sent: State, again: State)
    requires workers >= 2
    ensures Leads(Boot(map[], [], maxPerHour, workers, now), sent) && 0 in sent.rows && sent.rows[0].status == Sent
    ensures Leads(sent, again) && 0 in again.rows && again.rows[0].status == Sending
    ensures again.calls == [(0, Smtp(false)), (0, Ok), (0, Ok)]
  {
    sent := FirstWrites(maxPerHour, workers, now);
    Here(sent);
    again := Then(sent, sent, MarkSending(1));
    again := Then(sent, again, Transmit(1, Ok));
  }

  /** No run of the queue with this many workers ever delivers a message twice. */
  ghost predicate NeverTwice(maxPerHour: int, workers: nat, now: int) {
    forall steps, id | Runs(Boot(map[], [], maxPerHour, workers, now), steps) ::
      Wins(OutcomesOf(Run(Boot(map[], [], maxPerHour, workers, now), steps).calls, id)) <= 1
  }

  lemma WinsAppend(calls: seq<(nat, Outcome)>, outcome: Outcome)
    ensures Wins(OutcomesOf(calls + [(0, outcome)], 0)) == Wins(OutcomesOf(calls, 0)) + if outcome == Ok then 1 else 0
  {
    var outcomes := OutcomesOf(calls, 0);
    OutcomesAppend(calls, 0, outcome, 0);
    assert (outcomes + [outcome])[..|outcomes|] == outcomes;
  }

  lemma TwoWins(first: seq<(nat, Outcome)>)
    ensures Wins(OutcomesOf((first + [(0, Ok)]) + [(0, Ok)], 0)) >= 2
  {
    WinsAppend(first, Ok);
    WinsAppend(first + [(0, Ok)], Ok);
  }

  /**
    At most once, exactly: whatever the limit, every interleaving sends each message successfully at
    most once if and only if the queue is started with at most one worker.
    */
  lemma AtMostOnceIffOneWorker(maxPerHour: int, workers: nat, now: int)
    ensures NeverTwice(maxPerHour, workers, now) <==> workers <= 1
  {
    var boot := Boot(map[], [], maxPerHour, workers, now);
    if workers >= 2 {
      var sent, again := SentTwice(maxPerHour, workers, now);
      LeadsOn(boot, sent, again);
      var steps :| Runs(boot, steps) && Run(boot, steps) == again;
      TwoWins([(0, Smtp(false))]);
      assert again.calls == ([(0, Smtp(false))] + [(0, Ok)]) + [(0, Ok)];
    } else {
      forall steps, id | Runs(boot, steps) ensures Wins(OutcomesOf(Run(boot, steps).calls, id)) <= 1 {
        if workers == 1 { OneWorkerAtMostOnce(maxPerHour, now, steps, id); } else { NoWorkerNoSends(boot, steps); }
      }
    }
  }

  // Lost by a crash

  /** The first of two copies has been deferred again while the second waits in the channel. */
  lemma DeferredTwice(maxPerHour: int, workers: nat, now: int) returns (s: State)
    requires workers > 0
    ensures Leads(Boot(map[], [], maxPerHour, workers, now), s) && Quiet(s, maxPerHour, workers, now)
    ensures s.workers == Idles(workers) && s.pending == [0] && s.now == now + 300
    ensures s.rows == map[0 := Row("u", "a@b", Queued, 2, Some(now + 900), None)]
  {
    var boot := Boot(map[], [], maxPerHour, workers, now);
    var t := QueuedTwice(maxPerHour, workers, now);
    assert Pow2(1) == 2 * Pow2(0) && Backoff(1) == 600;
    s := ProcessHead(t, 0, Smtp(false), 0);
    ProcessIsAStretch(t, 0, Smtp(false), 0);
    LeadsOn(boot, t, s);
  }

  /**
    A crash can lose a message, with any number of workers: the worker defers one copy, takes the
    second, marks the row sending although its retry time lies ahead, and the process dies.
    */
  lemma CrashCanLose(maxPerHour: int, workers: nat, now: int) returns (s: State)
    requires workers > 0
    ensures Leads(Boot(map[], [], maxPerHour, workers, now), s) && 0 in s.rows && Live(s.rows[0].status)
    ensures RecoveryOrder(s.rows, s.now, []) && !NotLost(Boot(s.rows, [], maxPerHour, workers, s.now), 0)
  {
    var boot := Boot(map[], [], maxPerHour, workers, now);
    s := DeferredTwice(maxPerHour, workers, now);
    s := Takes(boot, s, 0, maxPerHour, workers, now);
    s := Then(boot, s, MarkSending(0));
    assert s.rows == map[0 := Row("u", "a@b", Sending, 2, Some(now + 900), None)];
    LostAtStart(s.rows, [], maxPerHour, workers, s.now, 0);
  }
}
