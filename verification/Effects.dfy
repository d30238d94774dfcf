/**
  What sends leave behind, over every interleaving: when a row was sent, what the log and the
  suppression list hold, whose message a row is, and which rows nothing touches.
  */
module Effects {
  import opened Wrappers
  import opened Tally
  import opened Delivery
  import opened Custody

  // The time of sending

  /** The step writes the result of a successful send to the row. */
  predicate WritesSuccess(s: State, step: Step, id: nat) {
    step.WriteRow? && step.w < |s.workers|
    && match s.workers[step.w] case Writing(i, _, outcome) => i == id && outcome == Ok case _ => false
  }

  /** When the last success was written to the row in the course of a run, if any was. */
  function SentTime(s: State, steps: seq<Step>, id: nat): Option<int>
    requires Runs(s, steps)
    decreases |steps|
  {
    if steps == [] then None
    else
      var later := SentTime(Apply(s, steps[0]), steps[1..], id);
      if later.Some? then later else if WritesSuccess(s, steps[0], id) then Some(s.now) else None
  }

  function SentAtBefore(s: State, id: nat): Option<int> { if id in s.rows then s.rows[id].sentAt else None }

  lemma SentAtStep(s: State, step: Step, id: nat)
    requires Enabled(s, step)
    ensures id in s.rows ==> id in Apply(s, step).rows
    ensures WritesSuccess(s, step, id) ==> id in Apply(s, step).rows && Apply(s, step).rows[id].status == Sent
    ensures SentAtBefore(Apply(s, step), id) == if WritesSuccess(s, step, id) then Some(s.now) else SentAtBefore(s, id)
  {
  }

  /** A row's time of sending is the moment its last success was written, and is empty until there is one. */
  lemma {:induction false} SentAtIsLastSuccess(s: State, steps: seq<Step>, id: nat)
    requires Runs(s, steps)
    ensures SentAtBefore(Run(s, steps), id)
         == if SentTime(s, steps, id).Some? then SentTime(s, steps, id) else SentAtBefore(s, id)
    decreases |steps|
  {
    if steps != [] {
      SentAtStep(s, steps[0], id);
      SentAtIsLastSuccess(Apply(s, steps[0]), steps[1..], id);
    }
  }

  lemma ClockForward(s: State, step: Step)
    requires Enabled(s, step)
    ensures s.now <= Apply(s, step).now
  {
  }

  lemma {:induction false} SentInTime(s: State, steps: seq<Step>, id: nat)
    requires Runs(s, steps)
    ensures s.now <= Run(s, steps).now
    ensures SentTime(s, steps, id).Some? ==> s.now <= SentTime(s, steps, id).value <= Run(s, steps).now
    decreases |steps|
  {
    if steps != [] {
      ClockForward(s, steps[0]);
      SentInTime(Apply(s, steps[0]), steps[1..], id);
    }
  }

  predicate Stamped(s: State, id: nat) { id in s.rows && s.rows[id].status == Sent ==> s.rows[id].sentAt.Some? }

  lemma {:induction false} StampedRun(s: State, steps: seq<Step>, id: nat)
    requires Runs(s, steps) && Stamped(s, id)
    ensures Stamped(Run(s, steps), id)
    decreases |steps|
  {
    if steps != [] {
      StampedStep(s, steps[0], id);
      StampedRun(Apply(s, steps[0]), steps[1..], id);
    }
  }

  lemma StampedStep(s: State, step: Step, id: nat)
    requires Enabled(s, step) && Stamped(s, id)
    ensures Stamped(Apply(s, step), id)
  {
  }

  /**
    In every interleaving from an empty table a sent row records when: the moment its last success
    was written, between the start and now; and a row without a written success records none.
    */
  lemma SentRowsAreStamped(maxPerHour: int, workers: nat, now: int, steps: seq<Step>, id: nat)
    requires Runs(Boot(map[], [], maxPerHour, workers, now), steps)
    requires id in Run(Boot(map[], [], maxPerHour, workers, now), steps).rows
    ensures var boot := Boot(map[], [], maxPerHour, workers, now);
            var s := Run(boot, steps);
            && s.rows[id].sentAt == SentTime(boot, steps, id)
            && (s.rows[id].status == Sent ==> s.rows[id].sentAt.Some?)
            && (s.rows[id].sentAt.Some? ==> now <= s.rows[id].sentAt.value <= s.now)
  {
    var boot := Boot(map[], [], maxPerHour, workers, now);
    SentAtIsLastSuccess(boot, steps, id);
    SentInTime(boot, steps, id);
    StampedRun(boot, steps, id);
  }

  // What one write does to a row

  /** The final write of process: each outcome changes its own columns and no other. */
  lemma WriteRowSets(s: State, step: Step)
    requires Enabled(s, step) && step.WriteRow?
    ensures var Writing(id, retries, outcome) := s.workers[step.w];
            var before, after := s.rows[id], Apply(s, step).rows[id];
            && (outcome == Ok ==> after == before.(status := Sent, sentAt := Some(s.now)))
            && (outcome == Smtp(false) && retries < 3 ==>
                  after == before.(status := Queued, retries := retries + 1, nextRetry := Some(s.now + 60 * [5, 10, 20][retries])))
            && (outcome == Smtp(true) || outcome == Other || (outcome == Smtp(false) && retries >= 3) ==>
                  after == before.(status := Failed))
    ensures forall other :: other in s.rows && other != s.workers[step.w].id ==>
              other in Apply(s, step).rows && Apply(s, step).rows[other] == s.rows[other]
  {
    assert Pow2(0) == 1 && Pow2(1) == 2 * Pow2(0) && Pow2(2) == 2 * Pow2(1);
  }

  // Whose message a row is

  predicate Made(steps: seq<Step>, id: nat, user: string, to: string) {
    exists k :: 0 <= k < |steps| && (steps[k] == Create(id, user, to, true) || steps[k] == Create(id, user, to, false))
  }

  lemma OwnerStep(s: State, step: Step, id: nat)
    requires Enabled(s, step) && id in Apply(s, step).rows
    ensures var row := Apply(s, step).rows[id];
            if id in s.rows then row.user == s.rows[id].user && row.to == s.rows[id].to
            else step == Create(id, row.user, row.to, true) || step == Create(id, row.user, row.to, false)
  {
  }

  /** Delivery never changes whose message it is or whom it goes to. */
  lemma {:induction false} RowIsAsCreated(s: State, steps: seq<Step>, id: nat)
    requires Runs(s, steps) && id in Run(s, steps).rows
    ensures var row := Run(s, steps).rows[id];
            if id in s.rows then row.user == s.rows[id].user && row.to == s.rows[id].to
            else Made(steps, id, row.user, row.to)
    decreases |steps|
  {
    if steps != [] {
      var t := Apply(s, steps[0]);
      RowIsAsCreated(t, steps[1..], id);
      if id in t.rows {
        OwnerStep(s, steps[0], id);
      } else {
        var row := Run(s, steps).rows[id];
        var k :| 0 <= k < |steps[1..]|
                 && (steps[1..][k] == Create(id, row.user, row.to, true) || steps[1..][k] == Create(id, row.user, row.to, false));
        assert steps[k + 1] == steps[1..][k];
        SentAtStep(s, steps[0], id);
      }
    }
  }

  // The suppression list

  /** The result a worker has not yet recorded belongs to a send that was made, of a row that exists. */
  predicate Carried(s: State, phase: Phase) {
    match phase
    case Transmitting(id, _) => id in s.rows
    case Writing(id, _, outcome) => id in s.rows && (id, outcome) in s.calls
    case Recording(id, _, outcome) => id in s.rows && (id, outcome) in s.calls
    case _ => true
  }

  /** The address belongs to a message that was refused for good. */
  predicate Refused(s: State, user: string, to: string) {
    exists id :: id in s.rows && s.rows[id].user == user && s.rows[id].to == to && (id, Smtp(true)) in s.calls
  }

  predicate Justified(s: State) {
    && (forall w :: 0 <= w < |s.workers| ==> Carried(s, s.workers[w]))
    && (forall i :: 0 <= i < |s.suppressions| ==> Refused(s, s.suppressions[i].0, s.suppressions[i].1))
  }

  lemma CallsKept(s: State, step: Step)
    requires Enabled(s, step)
    ensures forall c :: c in s.calls ==> c in Apply(s, step).calls
    ensures forall id :: id in s.rows ==> id in Apply(s, step).rows
  {
  }

  lemma RefusedStays(s: State, step: Step, user: string, to: string)
    requires Enabled(s, step) && Refused(s, user, to)
    ensures Refused(Apply(s, step), user, to)
  {
    var id :| id in s.rows && s.rows[id].user == user && s.rows[id].to == to && (id, Smtp(true)) in s.calls;
    CallsKept(s, step);
    OwnerStep(s, step, id);
    assert id in Apply(s, step).rows && (id, Smtp(true)) in Apply(s, step).calls;
  }

  lemma CarriedStep(s: State, step: Step, w: nat)
    requires Enabled(s, step) && w < |s.workers| && Carried(s, s.workers[w])
    ensures w < |Apply(s, step).workers| && Carried(Apply(s, step), Apply(s, step).workers[w])
  {
    ActorMoves(s, step);
    CallsKept(s, step);
    if Actor(step) == Some(w) && step.Transmit? {
      assert (s.workers[w].id, step.outcome) in Apply(s, step).calls;
    }
  }

  lemma SuppressionAdded(s: State, step: Step)
    requires Enabled(s, step)
    ensures Apply(s, step).suppressions
         == if step.Record? && s.workers[step.w].outcome == Smtp(true)
            then s.suppressions + [(s.rows[s.workers[step.w].id].user, s.rows[s.workers[step.w].id].to)]
            else s.suppressions
  {
  }

  lemma JustifiedStep(s: State, step: Step)
    requires Enabled(s, step) && Justified(s)
    ensures Justified(Apply(s, step))
  {
    var t := Apply(s, step);
    ActorMoves(s, step);
    forall w | 0 <= w < |t.workers| ensures Carried(t, t.workers[w]) { CarriedStep(s, step, w); }
    SuppressionAdded(s, step);
    forall i | 0 <= i < |t.suppressions| ensures Refused(t, t.suppressions[i].0, t.suppressions[i].1) {
      if i < |s.suppressions| {
        RefusedStays(s, step, s.suppressions[i].0, s.suppressions[i].1);
      } else {
        assert Carried(s, s.workers[step.w]);
        var id := s.workers[step.w].id;
        assert id in s.rows && (id, Smtp(true)) in s.calls;
        assert Refused(s, s.rows[id].user, s.rows[id].to);
        RefusedStays(s, step, s.rows[id].user, s.rows[id].to);
      }
    }
  }

  lemma {:induction false} JustifiedRun(s: State, steps: seq<Step>)
    requires Runs(s, steps) && Justified(s)
    ensures Justified(Run(s, steps))
    decreases |steps|
  {
    if steps != [] {
      JustifiedStep(s, steps[0]);
      JustifiedRun(Apply(s, steps[0]), steps[1..]);
    }
  }

  /** Only the recipient of a message that was sent and refused for good is suppressed, for its sender. */
  lemma OnlyTheRefusedAreSuppressed(maxPerHour: int, workers: nat, now: int, steps: seq<Step>, i: nat) returns (id: nat)
    requires Runs(Boot(map[], [], maxPerHour, workers, now), steps)
    requires i < |Run(Boot(map[], [], maxPerHour, workers, now), steps).suppressions|
    ensures var s := Run(Boot(map[], [], maxPerHour, workers, now), steps);
            (id, Smtp(true)) in s.calls && Made(steps, id, s.suppressions[i].0, s.suppressions[i].1)
  {
    var boot := Boot(map[], [], maxPerHour, workers, now);
    JustifiedRun(boot, steps);
    var s := Run(boot, steps);
    assert Refused(s, s.suppressions[i].0, s.suppressions[i].1);
    id :| id in s.rows && s.rows[id].user == s.suppressions[i].0 && s.rows[id].to == s.suppressions[i].1
          && (id, Smtp(true)) in s.calls;
    RowIsAsCreated(boot, steps, id);
  }

  // The accounts

  function Bit(b: bool): nat { if b then 1 else 0 }

  predicate Holds(phase: Phase, outcome: Outcome) { (phase.Writing? || phase.Recording?) && phase.outcome == outcome }

  ghost function Holding(outcome: Outcome): Phase -> nat { (phase: Phase) => Bit(Holds(phase, outcome)) }
  ghost function HoldingAny(): Phase -> nat { (phase: Phase) => Bit(phase.Writing? || phase.Recording?) }
  ghost function With(outcome: Outcome): ((nat, Outcome)) -> nat { (c: (nat, Outcome)) => Bit(c.1 == outcome) }
  ghost function OfKind(kind: EventKind): Event -> nat { (e: Event) => Bit(e.kind == kind) }

  /** How many sends ended this way, how many events of a kind there are, and how many results are in hand. */
  ghost function Sends(s: State, outcome: Outcome): nat { Sum(s.calls, With(outcome)) }
  ghost function Events(s: State, kind: EventKind): nat { Sum(s.events, OfKind(kind)) }
  ghost function InHand(s: State, outcome: Outcome): nat { Sum(s.workers, Holding(outcome)) }

  ghost predicate Balanced(s: State) {
    && Sends(s, Ok) == Events(s, SentEvent) + InHand(s, Ok)
    && Sends(s, Smtp(true)) == |s.suppressions| + InHand(s, Smtp(true))
    && |s.suppressions| == Events(s, BouncedEvent)
    && |s.calls| == Events(s, SentEvent) + Events(s, DeferredEvent) + Events(s, FailedEvent) + Sum(s.workers, HoldingAny())
  }

  lemma HandMove(s: State, w: nat, phase: Phase)
    requires w < |s.workers|
    ensures forall o :: Sum(s.workers[w := phase], Holding(o)) + Bit(Holds(s.workers[w], o)) == InHand(s, o) + Bit(Holds(phase, o))
    ensures Sum(s.workers[w := phase], HoldingAny()) + HoldingAny()(s.workers[w]) == Sum(s.workers, HoldingAny()) + HoldingAny()(phase)
  {
    forall o ensures Sum(s.workers[w := phase], Holding(o)) + Bit(Holds(s.workers[w], o)) == InHand(s, o) + Bit(Holds(phase, o)) {
      SumUpdate(s.workers, Holding(o), w, phase);
    }
    SumUpdate(s.workers, HoldingAny(), w, phase);
  }

  /** The events one recorded result adds. */
  lemma EventsAdded(s: State, step: Step, kind: EventKind)
    requires Enabled(s, step) && step.Record?
    ensures var Recording(id, retries, outcome) := s.workers[step.w];
            var added := Events(Apply(s, step), kind) - Events(s, kind);
            && (kind == SentEvent ==> added == Bit(outcome == Ok))
            && (kind == DeferredEvent ==> added == Bit(outcome == Smtp(false) && retries < 3))
            && (kind == FailedEvent ==> added == Bit(outcome != Ok && !(outcome == Smtp(false) && retries < 3)))
            && (kind == BouncedEvent ==> added == Bit(outcome == Smtp(true)))
  {
    var Recording(id, retries, outcome) := s.workers[step.w];
    var f := OfKind(kind);
    if outcome == Ok {
      SumAppend(s.events, f, Event(id, SentEvent));
    } else if outcome == Smtp(false) && retries < 3 {
      SumAppend(s.events, f, Event(id, DeferredEvent));
    } else {
      SumAppend(s.events, f, Event(id, FailedEvent));
      if outcome == Smtp(true) {
        SumAppend(s.events + [Event(id, FailedEvent)], f, Event(id, BouncedEvent));
        assert s.events + EventsAfter(id, retries, outcome) == s.events + [Event(id, FailedEvent)] + [Event(id, BouncedEvent)];
      }
    }
  }

  lemma RecordBalances(s: State, step: Step)
    requires Enabled(s, step) && step.Record? && Balanced(s)
    ensures Balanced(Apply(s, step))
  {
    ActorMoves(s, step);
    HandMove(s, step.w, Apply(s, step).workers[step.w]);
    EventsAdded(s, step, SentEvent);
    EventsAdded(s, step, DeferredEvent);
    EventsAdded(s, step, FailedEvent);
    EventsAdded(s, step, BouncedEvent);
    SuppressionAdded(s, step);
  }

  lemma CreateBalances(s: State, step: Step)
    requires Enabled(s, step) && step.Create? && Balanced(s)
    ensures Balanced(Apply(s, step))
  {
    var e := Event(step.id, QueuedEvent);
    SumAppend(s.events, OfKind(SentEvent), e);
    SumAppend(s.events, OfKind(DeferredEvent), e);
    SumAppend(s.events, OfKind(FailedEvent), e);
    SumAppend(s.events, OfKind(BouncedEvent), e);
  }

  lemma BalancedStep(s: State, step: Step)
    requires Enabled(s, step) && Balanced(s)
    ensures Balanced(Apply(s, step))
  {
    if step.Record? {
      RecordBalances(s, step);
    } else if step.Create? {
      CreateBalances(s, step);
    } else if step.Transmit? {
      TransmitBalances(s, step);
    } else {
      OtherBalances(s, step);
    }
  }

  lemma OtherBalances(s: State, step: Step)
    requires Enabled(s, step) && !step.Record? && !step.Create? && !step.Transmit? && Balanced(s)
    ensures Balanced(Apply(s, step))
  {
    ActorMoves(s, step);
    SuppressionAdded(s, step);
    if Actor(step).Some? { HandMove(s, Actor(step).value, Apply(s, step).workers[Actor(step).value]); }
  }

  lemma TransmitBalances(s: State, step: Step)
    requires Enabled(s, step) && step.Transmit? && Balanced(s)
    ensures Balanced(Apply(s, step))
  {
    HandMove(s, step.w, Apply(s, step).workers[step.w]);
    SumAppend(s.calls, With(Ok), (s.workers[step.w].id, step.outcome));
    SumAppend(s.calls, With(Smtp(true)), (s.workers[step.w].id, step.outcome));
  }

  lemma {:induction false} BalancedRun(s: State, steps: seq<Step>)
    requires Runs(s, steps) && Balanced(s)
    ensures Balanced(Run(s, steps))
    decreases |steps|
  {
    if steps != [] {
      BalancedStep(s, steps[0]);
      BalancedRun(Apply(s, steps[0]), steps[1..]);
    }
  }

  lemma {:induction false} NobodyHolds(workers: seq<Phase>, f: Phase -> nat)
    requires forall w :: 0 <= w < |workers| ==> f(workers[w]) == 0
    ensures Sum(workers, f) == 0
  {
    if workers != [] {
      assert forall w :: 0 <= w < |workers[1..]| ==> workers[1..][w] == workers[w + 1];
      NobodyHolds(workers[1..], f);
    }
  }

  /**
    The books balance in every interleaving: each send is logged once, as sent, deferred or failed;
    each success as sent; and each refusal for good adds one bounced event and one suppression; in
    all of these up to the results that workers still hold.
    */
  lemma EverySendIsLoggedOnce(rows: map<nat, Row>, order: seq<nat>, maxPerHour: int, workers: nat, now: int, steps: seq<Step>)
    requires Runs(Boot(rows, order, maxPerHour, workers, now), steps)
    ensures Balanced(Run(Boot(rows, order, maxPerHour, workers, now), steps))
  {
    var boot := Boot(rows, order, maxPerHour, workers, now);
    NobodyHolds(boot.workers, Holding(Ok));
    NobodyHolds(boot.workers, Holding(Smtp(true)));
    NobodyHolds(boot.workers, HoldingAny());
    BalancedRun(boot, steps);
  }

  /** How many messages the steps create with an event of their own. */
  function LoggedCreations(steps: seq<Step>): nat {
    if steps == [] then 0 else Bit(steps[0].Create? && steps[0].logged) + LoggedCreations(steps[1..])
  }

  lemma QueuedAdded(s: State, step: Step)
    requires Enabled(s, step)
    ensures Events(Apply(s, step), QueuedEvent) == Events(s, QueuedEvent) + Bit(step.Create? && step.logged)
  {
    var f := OfKind(QueuedEvent);
    if step.Create? {
      SumAppend(s.events, f, Event(step.id, QueuedEvent));
    } else if step.Record? {
      var Recording(id, retries, outcome) := s.workers[step.w];
      SumAppend(s.events, f, EventsAfter(id, retries, outcome)[0]);
      if outcome == Smtp(true) {
        SumAppend(s.events + [Event(id, FailedEvent)], f, Event(id, BouncedEvent));
        assert s.events + EventsAfter(id, retries, outcome) == s.events + [Event(id, FailedEvent)] + [Event(id, BouncedEvent)];
      }
    }
  }

  /** The log holds one queued event for each message created with one, and no other. */
  lemma {:induction false} QueuedOnceEach(s: State, steps: seq<Step>)
    requires Runs(s, steps)
    ensures Events(Run(s, steps), QueuedEvent) == Events(s, QueuedEvent) + LoggedCreations(steps)
    decreases |steps|
  {
    if steps != [] {
      QueuedAdded(s, steps[0]);
      QueuedOnceEach(Apply(s, steps[0]), steps[1..]);
    }
  }

  // Rows that nothing touches

  predicate Engaged(phase: Phase, id: nat) {
    (phase.Marking? || phase.Transmitting? || phase.Writing?) && phase.id == id
  }

  predicate Untouched(s: State, id: nat, row: Row) {
    && id in s.rows && s.rows[id] == row
    && (forall w :: 0 <= w < |s.workers| ==> !Engaged(s.workers[w], id))
    && (forall c :: c in s.calls ==> c.0 != id)
  }

  lemma UntouchedStep(s: State, step: Step, id: nat, row: Row)
    requires Enabled(s, step) && Untouched(s, id, row) && (row.status == Sent || row.status == Delivered || row.status == Failed)
    ensures Untouched(Apply(s, step), id, row)
  {
    ActorMoves(s, step);
  }

  lemma {:induction false} UntouchedRun(s: State, steps: seq<Step>, id: nat, row: Row)
    requires Runs(s, steps) && Untouched(s, id, row) && (row.status == Sent || row.status == Delivered || row.status == Failed)
    ensures Untouched(Run(s, steps), id, row)
    decreases |steps|
  {
    if steps != [] {
      UntouchedStep(s, steps[0], id, row);
      UntouchedRun(Apply(s, steps[0]), steps[1..], id, row);
    }
  }

  /** A message that was sent, delivered or failed before the start is never sent again, and its row never changes. */
  lemma FinishedStays(rows: map<nat, Row>, order: seq<nat>, maxPerHour: int, workers: nat, now: int, steps: seq<Step>, id: nat)
    requires Runs(Boot(rows, order, maxPerHour, workers, now), steps)
    requires id in rows && (rows[id].status == Sent || rows[id].status == Delivered || rows[id].status == Failed)
    ensures var s := Run(Boot(rows, order, maxPerHour, workers, now), steps);
            id in s.rows && s.rows[id] == rows[id] && forall c :: c in s.calls ==> c.0 != id
  {
    UntouchedRun(Boot(rows, order, maxPerHour, workers, now), steps, id, rows[id]);
  }

  /** The worker that reads a row goes on to mark it, unless there is none or it is sent, delivered or failed. */
  lemma ReadGoesOn(s: State, step: Step)
    requires Enabled(s, step) && step.ReadRow?
    ensures var id, after := s.workers[step.w].id, Apply(s, step).workers[step.w];
            if id !in s.rows || s.rows[id].status == Sent || s.rows[id].status == Delivered || s.rows[id].status == Failed
            then after == Idle
            else after == Marking(id, s.rows[id].retries)
  {
  }

  predicate Overdue(s: State, id: nat) {
    id in s.rows && s.rows[id].status == Queued && s.rows[id].nextRetry.Some? && s.rows[id].nextRetry.value <= s.now
  }

  /** The scheduler selects up to a hundred queued rows whose retry time has come, and all of them if there are fewer. */
  lemma QuerySelects(s: State, rows: seq<nat>)
    ensures Enabled(s, Query(rows)) <==>
              && s.batch == [] && |rows| <= 100
              && (forall i, j :: 0 <= i < j < |rows| ==> rows[i] != rows[j])
              && (forall id :: id in rows ==> Overdue(s, id))
              && (|rows| < 100 ==> forall id :: Overdue(s, id) ==> id in rows)
  {
    if forall id :: id in rows ==> id in s.rows && Due(s.rows[id], s.now) {
      assert forall i :: 0 <= i < |rows| ==> rows[i] in rows;
    }
  }

  // The order of the channel

  /** What a step puts into the channel, and what it takes out. */
  function Arrival(s: State, step: Step): seq<nat>
    requires Enabled(s, step)
  {
    match step
    case Enqueue(id) => [id]
    case Wake(id) => [id]
    case Push => [s.batch[0]]
    case _ => []
  }

  function Departure(s: State, step: Step): seq<nat>
    requires Enabled(s, step)
  {
    if step.Dequeue? then [s.pending[0]] else []
  }

  function Arrivals(s: State, steps: seq<Step>): seq<nat>
    requires Runs(s, steps)
    decreases |steps|
  {
    if steps == [] then [] else Arrival(s, steps[0]) + Arrivals(Apply(s, steps[0]), steps[1..])
  }

  function Departures(s: State, steps: seq<Step>): seq<nat>
    requires Runs(s, steps)
    decreases |steps|
  {
    if steps == [] then [] else Departure(s, steps[0]) + Departures(Apply(s, steps[0]), steps[1..])
  }

  lemma ChannelStep(s: State, step: Step)
    requires Enabled(s, step)
    ensures Departure(s, step) + Apply(s, step).pending == s.pending + Arrival(s, step)
  {
    if step.Dequeue? { assert [s.pending[0]] + s.pending[1..] == s.pending; }
  }

  lemma Chain(d: seq<nat>, ds: seq<nat>, end: seq<nat>, mid: seq<nat>, start: seq<nat>, a: seq<nat>, more: seq<nat>)
    requires d + mid == start + a && ds + end == mid + more
    ensures (d + ds) + end == start + (a + more)
  {
    assert (d + ds) + end == d + (ds + end) == (d + mid) + more;
  }

  /** First in, first out: what the workers have taken, followed by what is left, is all that was put in, in order. */
  lemma {:induction false} FirstInFirstOut(s: State, steps: seq<Step>)
    requires Runs(s, steps)
    ensures Departures(s, steps) + Run(s, steps).pending == s.pending + Arrivals(s, steps)
    decreases |steps|
  {
    if steps != [] {
      var t := Apply(s, steps[0]);
      ChannelStep(s, steps[0]);
      FirstInFirstOut(t, steps[1..]);
      Chain(Departure(s, steps[0]), Departures(t, steps[1..]), Run(s, steps).pending, t.pending,
            s.pending, Arrival(s, steps[0]), Arrivals(t, steps[1..]));
    }
  }

  // The limiter's own variables

  /** When the last reset was stamped in the course of a run, or the given time if none was. */
  function LastStamp(s: State, steps: seq<Step>, before: int): int
    requires Runs(s, steps)
    decreases |steps|
  {
    if steps == [] then before
    else LastStamp(Apply(s, steps[0]), steps[1..], if steps[0].Stamp? then s.now else before)
  }

  /** The successes counted since the counter was last zeroed, on top of what it showed at the start. */
  function CountedSince(steps: seq<Step>, before: int): int {
    if steps == [] then before
    else CountedSince(steps[1..], if steps[0].StoreZero? then 0 else if steps[0].AddCounter? then before + 1 else before)
  }

  /** The limiter's variables mean what their names say: the last reset, and the successes counted since. */
  lemma {:induction false} LimiterVariables(s: State, steps: seq<Step>)
    requires Runs(s, steps)
    ensures Run(s, steps).lastReset == LastStamp(s, steps, s.lastReset)
    ensures Run(s, steps).sentCount == CountedSince(steps, s.sentCount)
    decreases |steps|
  {
    if steps != [] {
      LimiterVariablesStep(s, steps[0]);
      LimiterVariables(Apply(s, steps[0]), steps[1..]);
    }
  }

  lemma LimiterVariablesStep(s: State, step: Step)
    requires Enabled(s, step)
    ensures Apply(s, step).lastReset == if step.Stamp? then s.now else s.lastReset
    ensures Apply(s, step).sentCount
         == if step.StoreZero? then 0 else if step.AddCounter? then s.sentCount + 1 else s.sentCount
  {
  }

  /** Its decisions: no limit unless it is positive, a reset after more than an hour, and parking at the limit. */
  lemma LimiterDecides(s: State, step: Step)
    requires Enabled(s, step)
    ensures step.Dequeue? ==>
              Apply(s, step).workers[step.w] == if s.maxPerHour > 0 then Testing(s.pending[0]) else Reading(s.pending[0])
    ensures step.TestReset? ==> (Apply(s, step).workers[step.w].Zeroing? <==> s.now - s.lastReset > 3600)
    ensures step.LoadCounter? ==>
              var id := s.workers[step.w].id;
              if s.sentCount < s.maxPerHour then Apply(s, step).workers[step.w] == Reading(id)
              else Apply(s, step).workers[step.w] == Idle && Apply(s, step).sleepers == s.sleepers + multiset{id}
    ensures step.Record? ==> (Apply(s, step).workers[step.w].Counting? <==> s.workers[step.w].outcome == Ok)
  {
  }
}
