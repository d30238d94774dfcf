/**
  The delivery queue as a concurrent state machine.  Every access a goroutine makes to shared
  memory or to the database is one step, so a run is any interleaving of the worker goroutines,
  the rate-limited sleepers, the retry scheduler and the request handlers.
  */
module Delivery {
  import opened Wrappers

  const HOUR: nat := 3600
  const FIVE_MINUTES: nat := 300
  const CAPACITY: nat := 10000   // buffer of the pending channel
  const BATCH: nat := 100        // Limit of the scheduler's query
  const MAX_RETRIES: nat := 3

  datatype Status = Queued | Sending | Sent | Delivered | Failed | Bounced | Complained

  /** The columns of a message row that delivery reads or writes. */
  datatype Row = Row(user: string, to: string, status: Status, retries: nat,
                     nextRetry: Option<int>, sentAt: Option<int>)

  datatype EventKind = QueuedEvent | SentEvent | DeferredEvent | FailedEvent | BouncedEvent
  datatype Event = Event(id: nat, kind: EventKind)

  /** What the queue sees of a send: success, an *SMTPError, or any other error. */
  datatype Outcome = Ok | Smtp(permanent: bool) | Other

  /** Where a worker stands inside process, with the locals it still needs. */
  datatype Phase =
    | Idle
    | Testing(id: nat)
    | Zeroing(id: nat)
    | Stamping(id: nat)
    | Loading(id: nat)
    | Reading(id: nat)
    | Marking(id: nat, retries: nat)
    | Transmitting(id: nat, retries: nat)
    | Writing(id: nat, retries: nat, outcome: Outcome)
    | Recording(id: nat, retries: nat, outcome: Outcome)
    | Counting(id: nat)

  /**
    pending: the channel.  sleepers: ids held by rate-limit goroutines.  batch: rows the scheduler
    has selected and not yet pushed.  handlers: rows created and not yet enqueued.
    started, calls, zeroed and added only record history: the start time, every send with its
    outcome, the resets made by each worker, and the number of counter increments.
    */
  datatype State = State(
    maxPerHour: int,
    pending: seq<nat>, workers: seq<Phase>, sleepers: multiset<nat>, batch: seq<nat>, handlers: multiset<nat>,
    sentCount: int, lastReset: int, now: int,
    rows: map<nat, Row>, events: seq<Event>, suppressions: seq<(string, string)>,
    started: int, calls: seq<(nat, Outcome)>, zeroed: seq<nat>, added: nat)

  datatype Step =
    | Tick(elapsed: nat)
    | Create(id: nat, user: string, to: string, logged: bool)
    | Enqueue(id: nat)
    | Dequeue(w: nat)
    | TestReset(w: nat)
    | StoreZero(w: nat)
    | Stamp(w: nat)
    | LoadCounter(w: nat)
    | ReadRow(w: nat)
    | MarkSending(w: nat)
    | Transmit(w: nat, outcome: Outcome)
    | WriteRow(w: nat)
    | Record(w: nat)
    | AddCounter(w: nat)
    | Wake(id: nat)
    | Query(rows: seq<nat>)
    | Push

  predicate Live(status: Status) { status == Queued || status == Sending }

  /** The statuses for which process returns at once. */
  predicate Processed(status: Status) { status == Sent || status == Delivered || status == Failed }

  function Pow2(n: nat): nat { if n == 0 then 1 else 2 * Pow2(n - 1) }

  /** The wait after a temporary failure: one shifted left by the retries so far, times five minutes. */
  function Backoff(retries: nat): nat { Pow2(retries) * FIVE_MINUTES }

  /** A failure that process defers instead of failing the message. */
  predicate Defers(outcome: Outcome, retries: nat) {
    outcome == Smtp(false) && retries < MAX_RETRIES
  }

  /** The column updates process makes after a send, from the retries it read before it. */
  function AfterSend(row: Row, retries: nat, outcome: Outcome, now: int): Row {
    if outcome == Ok then row.(status := Sent, sentAt := Some(now))
    else if Defers(outcome, retries) then
      row.(status := Queued, retries := retries + 1, nextRetry := Some(now + Backoff(retries)))
    else row.(status := Failed)
  }

  function EventsAfter(id: nat, retries: nat, outcome: Outcome): seq<Event> {
    if outcome == Ok then [Event(id, SentEvent)]
    else if Defers(outcome, retries) then [Event(id, DeferredEvent)]
    else if outcome == Smtp(true) then [Event(id, FailedEvent), Event(id, BouncedEvent)]
    else [Event(id, FailedEvent)]
  }

  predicate Ripe(row: Row, now: int) { row.nextRetry.None? || row.nextRetry.value <= now }

  /** The scheduler's query: queued rows whose retry time has come. */
  predicate Due(row: Row, now: int) { row.status == Queued && row.nextRetry.Some? && row.nextRetry.value <= now }

  /** A result the scheduler's query may return: at most 100 due rows, all of them if fewer. */
  predicate QueryResult(s: State, rows: seq<nat>) {
    && (forall i :: 0 <= i < |rows| ==> rows[i] in s.rows && Due(s.rows[rows[i]], s.now))
    && (forall i, j :: 0 <= i < j < |rows| ==> rows[i] != rows[j])
    && |rows| <= BATCH
    && (|rows| < BATCH ==> forall id :: id in s.rows && Due(s.rows[id], s.now) ==> id in rows)
  }

  predicate Worker(s: State, w: nat) { w < |s.workers| }

  predicate Enabled(s: State, step: Step) {
    match step
    case Tick(_) => true
    case Create(id, _, _, _) => id !in s.rows
    case Enqueue(id) => id in s.handlers && |s.pending| < CAPACITY
    case Dequeue(w) => Worker(s, w) && s.workers[w].Idle? && s.pending != []
    case TestReset(w) => Worker(s, w) && s.workers[w].Testing?
    case StoreZero(w) => Worker(s, w) && s.workers[w].Zeroing? && |s.zeroed| == |s.workers|
    case Stamp(w) => Worker(s, w) && s.workers[w].Stamping?
    case LoadCounter(w) => Worker(s, w) && s.workers[w].Loading?
    case ReadRow(w) => Worker(s, w) && s.workers[w].Reading?
    case MarkSending(w) => Worker(s, w) && s.workers[w].Marking? && s.workers[w].id in s.rows
    case Transmit(w, _) => Worker(s, w) && s.workers[w].Transmitting?
    case WriteRow(w) => Worker(s, w) && s.workers[w].Writing? && s.workers[w].id in s.rows
    case Record(w) => Worker(s, w) && s.workers[w].Recording? && s.workers[w].id in s.rows
    case AddCounter(w) => Worker(s, w) && s.workers[w].Counting?
    case Wake(id) => id in s.sleepers && |s.pending| < CAPACITY
    case Query(rows) => s.batch == [] && QueryResult(s, rows)
    case Push => s.batch != [] && |s.pending| < CAPACITY
  }

  function Go(s: State, w: nat, phase: Phase): State
    requires Worker(s, w)
  {
    s.(workers := s.workers[w := phase])
  }

  function Apply(s: State, step: Step): State
    requires Enabled(s, step)
  {
    match step
    case Tick(elapsed) => s.(now := s.now + elapsed)
    case Create(id, user, to, logged) =>
      s.(rows := s.rows[id := Row(user, to, Queued, 0, None, None)],
         events := if logged then s.events + [Event(id, QueuedEvent)] else s.events,
         handlers := s.handlers + multiset{id})
    case Enqueue(id) => s.(handlers := s.handlers - multiset{id}, pending := s.pending + [id])
    case Dequeue(w) =>
      var id := s.pending[0];
      Go(s.(pending := s.pending[1..]), w, if s.maxPerHour > 0 then Testing(id) else Reading(id))
    case TestReset(w) =>
      var id := s.workers[w].id;
      Go(s, w, if s.now - s.lastReset > HOUR then Zeroing(id) else Loading(id))
    case StoreZero(w) =>
      Go(s.(sentCount := 0, zeroed := s.zeroed[w := s.zeroed[w] + 1]), w, Stamping(s.workers[w].id))
    case Stamp(w) => Go(s.(lastReset := s.now), w, Loading(s.workers[w].id))
    case LoadCounter(w) =>
      var id := s.workers[w].id;
      if s.sentCount >= s.maxPerHour then Go(s.(sleepers := s.sleepers + multiset{id}), w, Idle)
      else Go(s, w, Reading(id))
    case ReadRow(w) =>
      var id := s.workers[w].id;
      if id !in s.rows || Processed(s.rows[id].status) then Go(s, w, Idle)
      else Go(s, w, Marking(id, s.rows[id].retries))
    case MarkSending(w) =>
      var Marking(id, retries) := s.workers[w];
      Go(s.(rows := s.rows[id := s.rows[id].(status := Sending)]), w, Transmitting(id, retries))
    case Transmit(w, outcome) =>
      var Transmitting(id, retries) := s.workers[w];
      Go(s.(calls := s.calls + [(id, outcome)]), w, Writing(id, retries, outcome))
    case WriteRow(w) =>
      var Writing(id, retries, outcome) := s.workers[w];
      Go(s.(rows := s.rows[id := AfterSend(s.rows[id], retries, outcome, s.now)]), w, Recording(id, retries, outcome))
    case Record(w) =>
      var Recording(id, retries, outcome) := s.workers[w];
      Go(s.(events := s.events + EventsAfter(id, retries, outcome),
            suppressions := if outcome == Smtp(true) then s.suppressions + [(s.rows[id].user, s.rows[id].to)]
                            else s.suppressions),
         w, if outcome == Ok then Counting(id) else Idle)
    case AddCounter(w) => Go(s.(sentCount := s.sentCount + 1, added := s.added + 1), w, Idle)
    case Wake(id) => s.(sleepers := s.sleepers - multiset{id}, pending := s.pending + [id])
    case Query(rows) => s.(batch := rows)
    case Push => s.(batch := s.batch[1..], pending := s.pending + [s.batch[0]])
  }

  /** The worker a step belongs to, if any. */
  function Actor(step: Step): Option<nat> {
    match step
    case Dequeue(w) => Some(w)
    case TestReset(w) => Some(w)
    case StoreZero(w) => Some(w)
    case Stamp(w) => Some(w)
    case LoadCounter(w) => Some(w)
    case ReadRow(w) => Some(w)
    case MarkSending(w) => Some(w)
    case Transmit(w, _) => Some(w)
    case WriteRow(w) => Some(w)
    case Record(w) => Some(w)
    case AddCounter(w) => Some(w)
    case _ => None
  }

  lemma ActorMoves(s: State, step: Step)
    requires Enabled(s, step)
    ensures var s' := Apply(s, step);
            match Actor(step)
            case None => s'.workers == s.workers
            case Some(w) => w < |s.workers| == |s'.workers| && s'.workers == s.workers[w := s'.workers[w]]
  {
  }

  predicate Runs(s: State, steps: seq<Step>)
    decreases |steps|
  {
    steps == [] || (Enabled(s, steps[0]) && Runs(Apply(s, steps[0]), steps[1..]))
  }

  function Run(s: State, steps: seq<Step>): State
    requires Runs(s, steps)
    decreases |steps|
  {
    if steps == [] then s else Run(Apply(s, steps[0]), steps[1..])
  }

  lemma {:induction false} RunsConcat(s: State, a: seq<Step>, b: seq<Step>)
    requires Runs(s, a) && Runs(Run(s, a), b)
    ensures Runs(s, a + b) && Run(s, a + b) == Run(Run(s, a), b)
    decreases |a|
  {
    if a == [] {
      assert a + b == b;
    } else {
      assert (a + b)[0] == a[0] && (a + b)[1..] == a[1..] + b;
      RunsConcat(Apply(s, a[0]), a[1..], b);
    }
  }

  /** The rows Start selects: unfinished, with no retry time or one that has come. */
  ghost function Recoverable(rows: map<nat, Row>, now: int): set<nat> {
    set id | id in rows && Live(rows[id].status) && Ripe(rows[id], now)
  }

  /** order lists each row of the recovery query once, in whatever order the database returns. */
  ghost predicate RecoveryOrder(rows: map<nat, Row>, now: int, order: seq<nat>) {
    && (forall id :: id in order <==> id in Recoverable(rows, now))
    && (forall i, j :: 0 <= i < j < |order| ==> order[i] != order[j])
  }

  /** The queue as a fresh process leaves Start: only the rows survive from before. */
  function Boot(rows: map<nat, Row>, order: seq<nat>, maxPerHour: int, workers: nat, now: int): (s: State) {
    State(maxPerHour, order, seq(workers, i => Idle), multiset{}, [], multiset{}, 0, now, now,
          rows, [], [], now, [], seq(workers, i => 0), 0)
  }
}
