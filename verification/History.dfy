/** Serial runs: a message's row is a replay of its event log, and every message finishes. */
module History {
  import opened Wrappers
  import opened Delivery
  import opened Serial

  /** Where a message stands according to its event log alone. */
  datatype Standing = Fresh | Waiting(deferred: nat) | DoneSent(deferred: nat)
    | DoneFailed(deferred: nat) | DoneBounced(deferred: nat) | Impossible

  function Log(events: seq<Event>, id: nat): seq<EventKind> {
    if events == [] then []
    else Log(events[..|events| - 1], id) + if events[|events| - 1].id == id then [events[|events| - 1].kind] else []
  }

  /** An optional queued, then deferreds, then sent, or failed with an optional bounced. */
  function Next(standing: Standing, kind: EventKind): Standing {
    match (standing, kind)
    case (Fresh, QueuedEvent) => Waiting(0)
    case (Fresh, DeferredEvent) => Waiting(1)
    case (Fresh, SentEvent) => DoneSent(0)
    case (Fresh, FailedEvent) => DoneFailed(0)
    case (Waiting(k), DeferredEvent) => Waiting(k + 1)
    case (Waiting(k), SentEvent) => DoneSent(k)
    case (Waiting(k), FailedEvent) => DoneFailed(k)
    case (DoneFailed(k), BouncedEvent) => DoneBounced(k)
    case _ => Impossible
  }

  function Replay(log: seq<EventKind>): Standing {
    if log == [] then Fresh else Next(Replay(log[..|log| - 1]), log[|log| - 1])
  }

  function OutcomesOf(calls: seq<(nat, Outcome)>, id: nat): seq<Outcome> {
    if calls == [] then []
    else OutcomesOf(calls[..|calls| - 1], id) + if calls[|calls| - 1].0 == id then [calls[|calls| - 1].1] else []
  }

  lemma LogAppend(events: seq<Event>, e: Event, id: nat)
    ensures Log(events + [e], id) == if e.id == id then Log(events, id) + [e.kind] else Log(events, id)
  {
    assert (events + [e])[..|events|] == events;
  }

  lemma OutcomesAppend(calls: seq<(nat, Outcome)>, i: nat, outcome: Outcome, id: nat)
    ensures OutcomesOf(calls + [(i, outcome)], id) == if i == id then OutcomesOf(calls, id) + [outcome] else OutcomesOf(calls, id)
  {
    assert (calls + [(i, outcome)])[..|calls|] == calls;
  }

  lemma ReplayAppend(log: seq<EventKind>, kind: EventKind)
    ensures Replay(log + [kind]) == Next(Replay(log), kind)
  {
    assert (log + [kind])[..|log|] == log;
  }

  predicate AllTemporary(outcomes: seq<Outcome>) {
    forall i :: 0 <= i < |outcomes| ==> outcomes[i] == Smtp(false)
  }

  function Deferrals(standing: Standing): nat {
    match standing
    case Waiting(k) => k
    case DoneSent(k) => k
    case DoneFailed(k) => k
    case DoneBounced(k) => k
    case _ => 0
  }

  function StatusOf(standing: Standing): Status {
    match standing
    case DoneSent(_) => Sent
    case DoneFailed(_) => Failed
    case DoneBounced(_) => Failed
    case _ => Queued
  }

  predicate Finished(standing: Standing) { StatusOf(standing) != Queued }

  /** The kind of outcome that ends a message in this standing. */
  predicate EndsIn(outcome: Outcome, standing: Standing) {
    match standing
    case DoneSent(_) => outcome == Ok
    case DoneBounced(_) => outcome == Smtp(true)
    case _ => outcome == Other || outcome == Smtp(false)
  }

  /**
    Row, log and sends of a message agree: k deferreds mean k retries and k temporary failures so
    far; once finished there was exactly one more send, a success iff the row is sent.
    */
  predicate Agrees(row: Row, standing: Standing, outcomes: seq<Outcome>) {
    var k := Deferrals(standing);
    && standing != Impossible
    && row.status == StatusOf(standing) && row.retries == k <= MAX_RETRIES
    && |outcomes| == (if Finished(standing) then k + 1 else k)
    && AllTemporary(outcomes[..k])
    && (Finished(standing) ==> EndsIn(outcomes[k], standing))
  }

  predicate Faithful(s: State, id: nat) {
    if id in s.rows then Agrees(s.rows[id], Replay(Log(s.events, id)), OutcomesOf(s.calls, id))
    else Log(s.events, id) == [] && OutcomesOf(s.calls, id) == []
  }

  /** The log of a message after one more attempt. */
  function LogWith(log: seq<EventKind>, retries: nat, outcome: Outcome): seq<EventKind> {
    if outcome == Ok then log + [SentEvent]
    else if Defers(outcome, retries) then log + [DeferredEvent]
    else if outcome == Smtp(true) then (log + [FailedEvent]) + [BouncedEvent]
    else log + [FailedEvent]
  }

  function StandingWith(standing: Standing, retries: nat, outcome: Outcome): Standing {
    if outcome == Ok then Next(standing, SentEvent)
    else if Defers(outcome, retries) then Next(standing, DeferredEvent)
    else if outcome == Smtp(true) then Next(Next(standing, FailedEvent), BouncedEvent)
    else Next(standing, FailedEvent)
  }

  lemma ReplayWith(log: seq<EventKind>, retries: nat, outcome: Outcome)
    ensures Replay(LogWith(log, retries, outcome)) == StandingWith(Replay(log), retries, outcome)
  {
    if outcome == Ok {
      ReplayAppend(log, SentEvent);
    } else if Defers(outcome, retries) {
      ReplayAppend(log, DeferredEvent);
    } else {
      ReplayAppend(log, FailedEvent);
      ReplayAppend(log + [FailedEvent], BouncedEvent);
    }
  }

  /** One attempt on an unfinished message whose row, log and sends agree. */
  lemma AgreesAfter(row: Row, standing: Standing, outcomes: seq<Outcome>, outcome: Outcome, now: int)
    requires Agrees(row, standing, outcomes) && !Processed(row.status)
    ensures Agrees(AfterSend(row, row.retries, outcome, now), StandingWith(standing, row.retries, outcome), outcomes + [outcome])
  {
    assert (outcomes + [outcome])[..|outcomes|] == outcomes == outcomes[..|outcomes|];
  }

  lemma LogAfter(events: seq<Event>, i: nat, retries: nat, outcome: Outcome, id: nat)
    ensures Log(events + EventsAfter(i, retries, outcome), id) ==
            if i != id then Log(events, id) else LogWith(Log(events, id), retries, outcome)
  {
    if outcome == Ok {
      LogAppend(events, Event(i, SentEvent), id);
    } else if Defers(outcome, retries) {
      LogAppend(events, Event(i, DeferredEvent), id);
    } else {
      LogAppend(events, Event(i, FailedEvent), id);
      if outcome == Smtp(true) {
        LogAppend(events + [Event(i, FailedEvent)], Event(i, BouncedEvent), id);
        assert events + EventsAfter(i, retries, outcome) == (events + [Event(i, FailedEvent)]) + [Event(i, BouncedEvent)];
      }
    }
  }

  lemma AttemptFaithful(s: State, i: nat, outcome: Outcome, elapsed: nat, id: nat)
    requires i in s.rows && !Processed(s.rows[i].status) && Faithful(s, id)
    ensures Faithful(Attempt(s, i, outcome, elapsed), id)
  {
    var t := Attempt(s, i, outcome, elapsed);
    LogAfter(s.events, i, s.rows[i].retries, outcome, id);
    OutcomesAppend(s.calls, i, outcome, id);
    if i == id {
      AgreesAfter(s.rows[id], Replay(Log(s.events, id)), OutcomesOf(s.calls, id), outcome, s.now + elapsed);
      ReplayWith(Log(s.events, id), s.rows[i].retries, outcome);
    } else {
      assert id in t.rows <==> id in s.rows;
      assert id in s.rows ==> t.rows[id] == s.rows[id];
    }
  }

  lemma CreateFaithful(s: State, step: Step, id: nat)
    requires step.Create? && Enabled(s, step) && Faithful(s, id)
    ensures Faithful(Apply(s, step), id)
  {
    var s' := Apply(s, step);
    LogAppend(s.events, Event(step.id, QueuedEvent), id);
    if step.id == id {
      assert s'.rows[id] == Row(step.user, step.to, Queued, 0, None, None);
      ReplayAppend([], QueuedEvent);
      assert [] + [QueuedEvent] == [QueuedEvent];
      assert OutcomesOf(s'.calls, id)[..0] == [];
    } else {
      assert id in s'.rows <==> id in s.rows;
      assert id in s.rows ==> s'.rows[id] == s.rows[id];
    }
  }

  lemma FaithfulTurn(s: State, turn: Turn, id: nat)
    requires CanTake(s, turn) && Faithful(s, id)
    ensures Faithful(Take(s, turn), id)
  {
    if turn.Process? {
      ProcessEffect(s, turn.w, turn.outcome, turn.elapsed);
      if Effective(s, turn.w) {
        AttemptFaithful(s, s.pending[0], turn.outcome, turn.elapsed, id);
      }
    } else if turn.step.Create? {
      CreateFaithful(s, turn.step, id);
    } else {
      OutsideEffect(s, turn.step);
    }
  }

  lemma {:induction false} FaithfulRun(s: State, turns: seq<Turn>, id: nat)
    requires Turns(s, turns) && Faithful(s, id)
    ensures Faithful(TakeAll(s, turns), id)
    decreases |turns|
  {
    if turns != [] {
      FaithfulTurn(s, turns[0], id);
      FaithfulRun(Take(s, turns[0]), turns[1..], id);
    }
  }

  function Wins(outcomes: seq<Outcome>): nat {
    if outcomes == [] then 0 else Wins(outcomes[..|outcomes| - 1]) + if outcomes[|outcomes| - 1] == Ok then 1 else 0
  }

  lemma {:induction false} NoWins(outcomes: seq<Outcome>)
    requires AllTemporary(outcomes)
    ensures Wins(outcomes) == 0
  {
    if outcomes != [] { NoWins(outcomes[..|outcomes| - 1]); }
  }

  /** A row that agrees with its sends had at most four of them and at most one success. */
  lemma AgreesBounds(row: Row, standing: Standing, outcomes: seq<Outcome>)
    requires Agrees(row, standing, outcomes)
    ensures |outcomes| <= MAX_RETRIES + 1 && Wins(outcomes) <= 1
    ensures Wins(outcomes) == 1 <==> row.status == Sent
  {
    if outcomes != [] {
      var init, k := outcomes[..|outcomes| - 1], Deferrals(standing);
      assert init == outcomes[..k] || init == outcomes[..k][..k - 1];
      NoWins(init);
    }
  }

  /**
    Serial replay: however many duplicate ids are queued, a message's status and retries equal a
    replay of its event log, it is sent at most four times, and at most one send succeeds.
    */
  lemma SerialReplay(maxPerHour: int, workers: nat, now: int, turns: seq<Turn>, id: nat)
    requires Turns(Boot(map[], [], maxPerHour, workers, now), turns)
    ensures var s := TakeAll(Boot(map[], [], maxPerHour, workers, now), turns);
            var outcomes := OutcomesOf(s.calls, id);
            && Faithful(s, id)
            && |outcomes| <= 4
            && Wins(outcomes) <= 1
            && (Wins(outcomes) == 1 <==> id in s.rows && s.rows[id].status == Sent)
  {
    FaithfulRun(Boot(map[], [], maxPerHour, workers, now), turns, id);
    var s := TakeAll(Boot(map[], [], maxPerHour, workers, now), turns);
    if id in s.rows { AgreesBounds(s.rows[id], Replay(Log(s.events, id)), OutcomesOf(s.calls, id)); }
  }

  // Termination

  /** Sends a message may still need: none once processed. */
  function Remaining(row: Row): nat {
    if Processed(row.status) || row.retries > MAX_RETRIES then 0 else MAX_RETRIES + 1 - row.retries
  }

  ghost function Total(rows: map<nat, Row>): nat
    decreases |rows|
  {
    if rows == map[] then 0 else
      var id :| id in rows;
      Remaining(rows[id]) + Total(rows - {id})
  }

  lemma {:induction false} TotalSplit(rows: map<nat, Row>, id: nat)
    requires id in rows
    ensures Total(rows) == Remaining(rows[id]) + Total(rows - {id})
    decreases |rows|
  {
    var x :| x in rows && Total(rows) == Remaining(rows[x]) + Total(rows - {x});
    if x != id {
      TotalSplit(rows - {x}, id);
      TotalSplit(rows - {id}, x);
      assert rows - {x} - {id} == rows - {id} - {x};
    }
  }

  /** The work left strictly falls on every turn that reaches a send. */
  lemma AttemptConsumes(s: State, id: nat, outcome: Outcome, elapsed: nat)
    requires id in s.rows && !Processed(s.rows[id].status) && s.rows[id].retries <= MAX_RETRIES
    ensures Total(Attempt(s, id, outcome, elapsed).rows) < Total(s.rows)
  {
    var rows' := Attempt(s, id, outcome, elapsed).rows;
    TotalSplit(s.rows, id);
    TotalSplit(rows', id);
    assert rows' - {id} == s.rows - {id};
  }

  lemma CreateAdds(rows: map<nat, Row>, id: nat, row: Row)
    requires id !in rows
    ensures Total(rows[id := row]) == Total(rows) + Remaining(row)
  {
    TotalSplit(rows[id := row], id);
    assert rows[id := row] - {id} == rows;
  }

  predicate Creates(turn: Turn) { turn.Outside? && turn.step.Create? }

  function Created(turns: seq<Turn>): nat {
    if turns == [] then 0 else (if Creates(turns[0]) then 1 else 0) + Created(turns[1..])
  }

  ghost predicate WithinBudget(s: State, budget: nat) {
    |s.calls| + Total(s.rows) <= budget && forall id :: Faithful(s, id)
  }

  lemma BudgetTurn(s: State, turn: Turn, budget: nat)
    requires CanTake(s, turn) && WithinBudget(s, budget)
    ensures WithinBudget(Take(s, turn), budget + if Creates(turn) then MAX_RETRIES + 1 else 0)
  {
    forall id ensures Faithful(Take(s, turn), id) { FaithfulTurn(s, turn, id); }
    if turn.Process? {
      ProcessEffect(s, turn.w, turn.outcome, turn.elapsed);
      if Effective(s, turn.w) {
        assert Faithful(s, s.pending[0]);
        AttemptConsumes(s, s.pending[0], turn.outcome, turn.elapsed);
      }
    } else if turn.step.Create? {
      CreateAdds(s.rows, turn.step.id, Row(turn.step.user, turn.step.to, Queued, 0, None, None));
    } else {
      OutsideEffect(s, turn.step);
    }
  }

  lemma {:induction false} BudgetRun(s: State, turns: seq<Turn>, budget: nat)
    requires Turns(s, turns) && WithinBudget(s, budget)
    ensures WithinBudget(TakeAll(s, turns), budget + (MAX_RETRIES + 1) * Created(turns))
    decreases |turns|
  {
    if turns != [] {
      BudgetTurn(s, turns[0], budget);
      BudgetRun(Take(s, turns[0]), turns[1..], budget + if Creates(turns[0]) then MAX_RETRIES + 1 else 0);
    }
  }

  /** Termination: a serial run makes at most four sends per message created, however long it is. */
  lemma SendsBounded(maxPerHour: int, workers: nat, now: int, turns: seq<Turn>)
    requires Turns(Boot(map[], [], maxPerHour, workers, now), turns)
    ensures |TakeAll(Boot(map[], [], maxPerHour, workers, now), turns).calls| <= 4 * Created(turns)
  {
    BudgetRun(Boot(map[], [], maxPerHour, workers, now), turns, 0);
  }

  /** No row ever takes the status bounced, which the statistics count separately. */
  lemma {:induction false} NeverBounced(s: State, steps: seq<Step>, id: nat)
    requires Runs(s, steps) && (id in s.rows ==> s.rows[id].status != Bounced)
    ensures id in Run(s, steps).rows ==> Run(s, steps).rows[id].status != Bounced
    decreases |steps|
  {
    if steps != [] {
      NeverBounced(Apply(s, steps[0]), steps[1..], id);
    }
  }
}
