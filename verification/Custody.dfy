/** Who holds each message: ids are conserved, no message is lost, nothing deadlocks. */
module Custody {
  import opened Tally
  import opened Delivery

  /** A worker carries an id from dequeue until its final write to the row. */
  predicate Carries(phase: Phase, id: nat) {
    !phase.Idle? && !phase.Recording? && !phase.Counting? && phase.id == id
  }

  function CarryBit(phase: Phase, id: nat): nat { if Carries(phase, id) then 1 else 0 }
  ghost function Carrier(id: nat): Phase -> nat { (phase: Phase) => CarryBit(phase, id) }

  /** Copies of an id in flight: in the channel, asleep, in the scheduler's batch, with a handler or a worker. */
  ghost function Copies(s: State, id: nat): nat { Loose(s, id) + Sum(s.workers, Carrier(id)) }

  ghost function Loose(s: State, id: nat): nat {
    multiset(s.pending)[id] + s.sleepers[id] + multiset(s.batch)[id] + s.handlers[id]
  }

  /** The copies a step brings into flight. */
  ghost function Born(step: Step, id: nat): nat {
    match step
    case Create(i, _, _, _) => if i == id then 1 else 0
    case Query(rows) => multiset(rows)[id]
    case _ => 0
  }

  /** The copies a step retires: an id dropped for its row's state, or written to its row. */
  ghost function Retired(s: State, step: Step, id: nat): nat
    requires Enabled(s, step)
  {
    match step
    case ReadRow(w) =>
      if s.workers[w].id == id && (id !in s.rows || Processed(s.rows[id].status)) then 1 else 0
    case WriteRow(w) => if s.workers[w].id == id then 1 else 0
    case _ => 0
  }

  lemma LooseMove(s: State, step: Step, id: nat)
    requires Enabled(s, step) && Actor(step).Some?
    ensures var s' := Apply(s, step); var w := Actor(step).value;
            Loose(s', id) + CarryBit(s'.workers[w], id) == Loose(s, id) + CarryBit(s.workers[w], id) - Retired(s, step, id)
  {
    var s' := Apply(s, step);
    if step.Dequeue? {
      OneLess(s.pending, id);
    } else if !step.LoadCounter? {
      assert s'.pending == s.pending && s'.sleepers == s.sleepers && s'.batch == s.batch && s'.handlers == s.handlers;
      assert Loose(s', id) == Loose(s, id);
      CarryKept(s, step, id);
    }
  }

  lemma CarryKept(s: State, step: Step, id: nat)
    requires Enabled(s, step) && Actor(step).Some? && !step.Dequeue? && !step.LoadCounter?
    ensures var s' := Apply(s, step); var w := Actor(step).value;
            CarryBit(s'.workers[w], id) == CarryBit(s.workers[w], id) - Retired(s, step, id)
  {
  }

  lemma OneMore(xs: seq<nat>, x: nat, id: nat)
    ensures multiset(xs + [x])[id] == multiset(xs)[id] + if x == id then 1 else 0
  {
  }

  lemma OneLess(xs: seq<nat>, id: nat)
    requires xs != []
    ensures multiset(xs)[id] == multiset(xs[1..])[id] + if xs[0] == id then 1 else 0
  {
    assert xs == [xs[0]] + xs[1..];
  }

  lemma LooseArrivals(s: State, step: Step, id: nat)
    requires Enabled(s, step) && Actor(step).None?
    ensures Loose(Apply(s, step), id) == Loose(s, id) + Born(step, id)
  {
    match step
    case Enqueue(i) => OneMore(s.pending, i, id);
    case Wake(i) => OneMore(s.pending, i, id);
    case Push =>
      OneMore(s.pending, s.batch[0], id);
      OneLess(s.batch, id);
    case Query(rows) => assert s.batch == [];
    case Tick(_) =>
    case Create(_, _, _, _) =>
    case _ =>
  }

  /** Conservation: a step changes the copies of an id only by what it creates, selects or retires. */
  lemma CopiesConserved(s: State, step: Step, id: nat)
    requires Enabled(s, step)
    ensures Copies(Apply(s, step), id) == Copies(s, id) + Born(step, id) - Retired(s, step, id)
  {
    ActorMoves(s, step);
    if Actor(step).Some? {
      var w := Actor(step).value;
      SumUpdate(s.workers, Carrier(id), w, Apply(s, step).workers[w]);
      LooseMove(s, step, id);
    } else {
      LooseArrivals(s, step, id);
    }
  }

  /** An unfinished message is in flight, or waits in the table for the scheduler. */
  ghost predicate NotLost(s: State, id: nat) {
    id in s.rows && Live(s.rows[id].status) ==>
      Copies(s, id) > 0 || (s.rows[id].status == Queued && s.rows[id].nextRetry.Some?)
  }

  /** The step writes to the row of id on behalf of the worker that carries it. */
  predicate Touches(s: State, step: Step, id: nat)
    requires Enabled(s, step)
  {
    (step.MarkSending? || step.WriteRow?) && s.workers[step.w].id == id
  }

  /** The only steps that change a row: its creation, a mark and a final write. */
  lemma RowChange(s: State, step: Step, id: nat)
    requires Enabled(s, step) && id in Apply(s, step).rows
    requires !Touches(s, step, id) && !(step.Create? && step.id == id)
    ensures id in s.rows && Apply(s, step).rows[id] == s.rows[id]
  {
  }

  lemma TouchedIsCarried(s: State, step: Step, id: nat)
    requires Enabled(s, step) && Touches(s, step, id)
    ensures Copies(s, id) > 0
  {
    SumAtLeast(s.workers, Carrier(id), step.w);
  }

  lemma NotLostStep(s: State, step: Step, id: nat)
    requires Enabled(s, step) && NotLost(s, id)
    ensures NotLost(Apply(s, step), id)
  {
    CopiesConserved(s, step, id);
    if Touches(s, step, id) {
      TouchedIsCarried(s, step, id);
    } else if id in Apply(s, step).rows && !(step.Create? && step.id == id) {
      RowChange(s, step, id);
    }
  }

  /**
    No message is lost: in every interleaving from a started process, each message that was not
    already out of reach at the start, and each message created later, stays in flight or waiting.
    */
  lemma {:induction false} NoMessageLost(s: State, steps: seq<Step>, id: nat)
    requires Runs(s, steps) && NotLost(s, id)
    ensures NotLost(Run(s, steps), id)
    decreases |steps|
  {
    if steps != [] {
      NotLostStep(s, steps[0], id);
      NoMessageLost(Apply(s, steps[0]), steps[1..], id);
    }
  }

  /** Marked the row and not yet made the final write. */
  predicate Sends(phase: Phase, id: nat) { (phase.Transmitting? || phase.Writing?) && phase.id == id }

  ghost predicate SendingHeld(s: State, id: nat) {
    id in s.rows && s.rows[id].status == Sending ==>
      exists w :: 0 <= w < |s.workers| && Sends(s.workers[w], id)
  }

  lemma SendingBefore(s: State, step: Step, id: nat)
    requires Enabled(s, step) && !(step.MarkSending? && s.workers[step.w].id == id)
    requires id in Apply(s, step).rows && Apply(s, step).rows[id].status == Sending
    ensures id in s.rows && s.rows[id].status == Sending && !(step.WriteRow? && s.workers[step.w].id == id)
  {
  }

  lemma SenderStays(s: State, step: Step, id: nat, w: nat)
    requires Enabled(s, step) && !(step.WriteRow? && s.workers[step.w].id == id)
    requires w < |s.workers| && Sends(s.workers[w], id)
    ensures w < |Apply(s, step).workers| && Sends(Apply(s, step).workers[w], id)
  {
  }

  lemma SendingHeldStep(s: State, step: Step, id: nat)
    requires Enabled(s, step) && SendingHeld(s, id)
    ensures SendingHeld(Apply(s, step), id)
  {
    var s' := Apply(s, step);
    ActorMoves(s, step);
    if id in s'.rows && s'.rows[id].status == Sending {
      if step.MarkSending? && s.workers[step.w].id == id {
        assert Sends(s'.workers[step.w], id);
      } else {
        SendingBefore(s, step, id);
        var w :| 0 <= w < |s.workers| && Sends(s.workers[w], id);
        SenderStays(s, step, id, w);
      }
    }
  }

  /** A row marked sending is always held by a worker between its mark and its final write. */
  lemma {:induction false} SendingAlwaysHeld(s: State, steps: seq<Step>, id: nat)
    requires Runs(s, steps) && SendingHeld(s, id)
    ensures SendingHeld(Run(s, steps), id)
    decreases |steps|
  {
    if steps != [] {
      SendingHeldStep(s, steps[0], id);
      SendingAlwaysHeld(Apply(s, steps[0]), steps[1..], id);
    }
  }

  lemma {:induction false} NoCarriers(n: nat, id: nat)
    ensures Sum(seq(n, i => Idle), Carrier(id)) == 0
  {
    if n > 0 {
      assert seq(n, i => Idle)[1..] == seq(n - 1, i => Idle);
      NoCarriers(n - 1, id);
    }
  }

  /** Right after Start the copies in flight are exactly the recovered rows, one each. */
  lemma BootCopies(rows: map<nat, Row>, order: seq<nat>, maxPerHour: int, workers: nat, now: int, id: nat)
    requires RecoveryOrder(rows, now, order)
    ensures Copies(Boot(rows, order, maxPerHour, workers, now), id) == if id in Recoverable(rows, now) then 1 else 0
  {
    NoCarriers(workers, id);
    DistinctCount(order, id);
  }

  lemma {:induction false} DistinctCount(xs: seq<nat>, id: nat)
    requires forall i, j :: 0 <= i < j < |xs| ==> xs[i] != xs[j]
    ensures multiset(xs)[id] == if id in xs then 1 else 0
  {
    if xs != [] {
      var rest := xs[1..];
      assert xs == [xs[0]] + rest;
      assert forall i, j :: 0 <= i < j < |rest| ==> rest[i] == xs[i + 1] && rest[j] == xs[j + 1];
      DistinctCount(rest, id);
    }
  }

  /**
    What Start leaves out of reach: exactly the sending rows whose retry time lies ahead.  Every
    other unfinished row is recovered or waits for the scheduler.
    */
  lemma LostAtStart(rows: map<nat, Row>, order: seq<nat>, maxPerHour: int, workers: nat, now: int, id: nat)
    requires RecoveryOrder(rows, now, order) && id in rows
    ensures !NotLost(Boot(rows, order, maxPerHour, workers, now), id) <==>
            rows[id].status == Sending && !Ripe(rows[id], now)
  {
    BootCopies(rows, order, maxPerHour, workers, now, id);
  }

  /** From an empty table both invariants hold of every id, at every moment of every run. */
  lemma CustodyFromEmpty(maxPerHour: int, workers: nat, now: int, steps: seq<Step>, id: nat)
    requires Runs(Boot(map[], [], maxPerHour, workers, now), steps)
    ensures var s := Run(Boot(map[], [], maxPerHour, workers, now), steps); NotLost(s, id) && SendingHeld(s, id)
  {
    NoMessageLost(Boot(map[], [], maxPerHour, workers, now), steps, id);
    SendingAlwaysHeld(Boot(map[], [], maxPerHour, workers, now), steps, id);
  }

  /** Every worker inside the table-access phases works on an existing row. */
  ghost predicate RowsExist(s: State) {
    && |s.zeroed| == |s.workers|
    && |s.pending| <= 10_000
    && forall w :: 0 <= w < |s.workers| ==>
         (s.workers[w].Marking? || s.workers[w].Transmitting? || s.workers[w].Writing? || s.workers[w].Recording?)
         ==> s.workers[w].id in s.rows
  }

  lemma {:induction false} RowsExistRun(s: State, steps: seq<Step>)
    requires RowsExist(s) && Runs(s, steps)
    ensures RowsExist(Run(s, steps)) && |Run(s, steps).workers| == |s.workers|
    decreases |steps|
  {
    if steps != [] {
      RowsExistStep(s, steps[0]);
      RowsExistRun(Apply(s, steps[0]), steps[1..]);
    }
  }

  lemma RowsExistStep(s: State, step: Step)
    requires RowsExist(s) && Enabled(s, step)
    ensures RowsExist(Apply(s, step)) && |Apply(s, step).workers| == |s.workers|
  {
    ActorMoves(s, step);
  }

  /** The one step a busy worker can take next, given the outcome of a send. */
  function NextStep(s: State, w: nat, outcome: Outcome): Step
    requires Worker(s, w) && !s.workers[w].Idle?
  {
    match s.workers[w]
    case Testing(_) => TestReset(w)
    case Zeroing(_) => StoreZero(w)
    case Stamping(_) => Stamp(w)
    case Loading(_) => LoadCounter(w)
    case Reading(_) => ReadRow(w)
    case Marking(_, _) => MarkSending(w)
    case Transmitting(_, _) => Transmit(w, outcome)
    case Writing(_, _, _) => WriteRow(w)
    case Recording(_, _, _) => Record(w)
    case Counting(_) => AddCounter(w)
  }

  /**
    No deadlock: the channel never exceeds its buffer, a busy worker can always take its next
    step, and while anything is in flight some worker, sleeper, handler or the scheduler can move.
    */
  lemma NoDeadlock(rows: map<nat, Row>, order: seq<nat>, maxPerHour: int, workers: nat, now: int,
                   steps: seq<Step>, id: nat, w: nat, outcome: Outcome)
    requires workers > 0 && |order| <= CAPACITY
    requires Runs(Boot(rows, order, maxPerHour, workers, now), steps)
    ensures var s := Run(Boot(rows, order, maxPerHour, workers, now), steps);
            && |s.pending| <= 10_000
            && (w < workers ==> |s.workers| == workers && (!s.workers[w].Idle? ==> Enabled(s, NextStep(s, w, outcome))))
            && (Copies(s, id) > 0 ==> exists step: Step :: Moves(s, step))
  {
    var s0 := Boot(rows, order, maxPerHour, workers, now);
    RowsExistRun(s0, steps);
    var s := Run(s0, steps);
    if w < workers && !s.workers[w].Idle? {
      BusyEnabled(s, w, outcome);
    }
    if Copies(s, id) > 0 {
      SomeoneMoves(s, id);
    }
  }

  predicate Moves(s: State, step: Step) { !step.Tick? && !step.Create? && !step.Query? && Enabled(s, step) }

  lemma BusyEnabled(s: State, w: nat, outcome: Outcome)
    requires RowsExist(s) && w < |s.workers| && !s.workers[w].Idle?
    ensures Moves(s, NextStep(s, w, outcome))
  {
  }

  lemma BusyMoves(s: State, w: nat)
    requires RowsExist(s) && w < |s.workers| && !s.workers[w].Idle?
    ensures exists step: Step :: Moves(s, step)
  {
    BusyEnabled(s, w, Other);
  }

  lemma SomeoneMoves(s: State, id: nat)
    requires RowsExist(s) && |s.workers| > 0 && Copies(s, id) > 0
    ensures exists step: Step :: Moves(s, step)
  {
    if Sum(s.workers, Carrier(id)) > 0 {
      var w := SumPositive(s.workers, Carrier(id));
      BusyMoves(s, w);
    } else if s.pending != [] && s.workers[0].Idle? {
      assert Moves(s, Dequeue(0));
    } else if s.pending != [] {
      BusyMoves(s, 0);
    } else if s.sleepers[id] > 0 {
      assert Moves(s, Wake(id));
    } else if s.handlers[id] > 0 {
      assert Moves(s, Enqueue(id));
    } else {
      assert Moves(s, Push);
    }
  }
}
