/**
  Serial runs: process is atomic.  Each serial turn is a stretch of the concurrent machine in
  which one worker runs from dequeue to idle without interruption.
  */
module Serial {
  import opened Delivery

  datatype Turn = Outside(step: Step) | Process(w: nat, outcome: Outcome, elapsed: nat)

  /** One send of the message and all that follows from its outcome; elapsed is the time it took. */
  function Attempt(s: State, id: nat, outcome: Outcome, elapsed: nat): State
    requires id in s.rows
  {
    var row := s.rows[id];
    var bit := if outcome == Ok then 1 else 0;
    s.(now := s.now + elapsed,
       calls := s.calls + [(id, outcome)],
       rows := s.rows[id := AfterSend(row, row.retries, outcome, s.now + elapsed)],
       events := s.events + EventsAfter(id, row.retries, outcome),
       suppressions := if outcome == Smtp(true) then s.suppressions + [(row.user, row.to)] else s.suppressions,
       sentCount := s.sentCount + bit, added := s.added + bit)
  }

  predicate ResetDue(s: State) { s.maxPerHour > 0 && s.now - s.lastReset > HOUR }

  function AfterReset(s: State, w: nat): State
    requires w < |s.zeroed|
  {
    if ResetDue(s) then s.(sentCount := 0, lastReset := s.now, zeroed := s.zeroed[w := s.zeroed[w] + 1]) else s
  }

  predicate AtLimit(s: State) { s.maxPerHour > 0 && s.sentCount >= s.maxPerHour }

  /** process of worker.go as one atomic step. */
  function ProcessId(s: State, id: nat, w: nat, outcome: Outcome, elapsed: nat): State
    requires w < |s.zeroed|
  {
    var t := AfterReset(s, w);
    if AtLimit(t) then t.(sleepers := t.sleepers + multiset{id})
    else if id !in t.rows || Processed(t.rows[id].status) then t
    else Attempt(t, id, outcome, elapsed)
  }

  function ProcessHead(s: State, w: nat, outcome: Outcome, elapsed: nat): State
    requires w < |s.zeroed| && s.pending != []
  {
    ProcessId(s.(pending := s.pending[1..]), s.pending[0], w, outcome, elapsed)
  }

  /** The turn reaches a send: within the limit, and the row is there and unfinished. */
  predicate Effective(s: State, w: nat)
    requires w < |s.zeroed| && s.pending != []
  {
    var id := s.pending[0];
    !AtLimit(AfterReset(s.(pending := s.pending[1..]), w)) && id in s.rows && !Processed(s.rows[id].status)
  }

  lemma ProcessEffect(s: State, w: nat, outcome: Outcome, elapsed: nat)
    requires w < |s.zeroed| && s.pending != []
    ensures var t := ProcessHead(s, w, outcome, elapsed);
            if Effective(s, w) then
              var u := Attempt(s, s.pending[0], outcome, elapsed);
              t.rows == u.rows && t.events == u.events && t.calls == u.calls && t.suppressions == u.suppressions
            else t.rows == s.rows && t.events == s.events && t.calls == s.calls && t.suppressions == s.suppressions
  {
  }

  lemma OutsideEffect(s: State, step: Step)
    requires Actor(step).None? && Enabled(s, step) && !step.Create?
    ensures var t := Apply(s, step);
            t.rows == s.rows && t.events == s.events && t.calls == s.calls && t.suppressions == s.suppressions
  {
  }

  predicate AllIdle(s: State) {
    |s.zeroed| == |s.workers| && forall w :: 0 <= w < |s.workers| ==> s.workers[w].Idle?
  }

  predicate CanTake(s: State, turn: Turn) {
    match turn
    case Outside(step) => Actor(step).None? && Enabled(s, step)
    case Process(w, _, _) => w < |s.workers| && w < |s.zeroed| && s.pending != []
  }

  function Take(s: State, turn: Turn): State
    requires CanTake(s, turn)
  {
    match turn
    case Outside(step) => Apply(s, step)
    case Process(w, outcome, elapsed) => ProcessHead(s, w, outcome, elapsed)
  }

  predicate Turns(s: State, turns: seq<Turn>)
    decreases |turns|
  {
    turns == [] || (CanTake(s, turns[0]) && Turns(Take(s, turns[0]), turns[1..]))
  }

  function TakeAll(s: State, turns: seq<Turn>): State
    requires Turns(s, turns)
    decreases |turns|
  {
    if turns == [] then s else TakeAll(Take(s, turns[0]), turns[1..])
  }

  // Refinement: a serial run is one of the interleavings

  ghost predicate Leads(s: State, t: State) { exists steps :: Runs(s, steps) && Run(s, steps) == t }

  lemma Here(s: State)
    ensures Leads(s, s)
  {
    assert Runs(s, []) && Run(s, []) == s;
  }

  lemma Then(s: State, t: State, step: Step) returns (u: State)
    requires Leads(s, t) && Enabled(t, step)
    ensures u == Apply(t, step) && Leads(s, u)
  {
    u := Apply(t, step);
    var steps :| Runs(s, steps) && Run(s, steps) == t;
    assert [step][1..] == [];
    assert Runs(t, [step]) && Run(t, [step]) == u;
    RunsConcat(s, steps, [step]);
  }

  lemma LeadsOn(s: State, t: State, u: State)
    requires Leads(s, t) && Leads(t, u)
    ensures Leads(s, u)
  {
    var a :| Runs(s, a) && Run(s, a) == t;
    var b :| Runs(t, b) && Run(t, b) == u;
    RunsConcat(s, a, b);
  }

  /** Dequeue, reset test and reset, as far as the counter load. */
  lemma LimiterRuns(s: State, w: nat) returns (t: State)
    requires w < |s.workers| == |s.zeroed| && s.workers[w].Idle? && s.pending != [] && s.maxPerHour > 0
    ensures t == Go(AfterReset(s.(pending := s.pending[1..]), w), w, Loading(s.pending[0])) && Leads(s, t)
  {
    Here(s);
    t := Then(s, s, Dequeue(w));
    t := Then(s, t, TestReset(w));
    if ResetDue(s) {
      t := Then(s, t, StoreZero(w));
      t := Then(s, t, Stamp(w));
    }
  }

  lemma AdmittedRuns(s: State, w: nat) returns (t: State)
    requires w < |s.workers| == |s.zeroed| && s.workers[w].Idle? && s.pending != []
    ensures var r := AfterReset(s.(pending := s.pending[1..]), w); var id := s.pending[0];
            t == if AtLimit(r) then r.(sleepers := r.sleepers + multiset{id}) else Go(r, w, Reading(id))
    ensures Leads(s, t)
  {
    if s.maxPerHour > 0 {
      t := LimiterRuns(s, w);
      t := Then(s, t, LoadCounter(w));
    } else {
      Here(s);
      t := Then(s, s, Dequeue(w));
    }
  }

  /** The row read and the mark. */
  lemma MarkRuns(s: State, w: nat, id: nat) returns (t: State)
    requires w < |s.workers| && s.workers[w] == Reading(id) && id in s.rows && !Processed(s.rows[id].status)
    ensures t == Go(s.(rows := s.rows[id := s.rows[id].(status := Sending)]), w, Transmitting(id, s.rows[id].retries))
    ensures Leads(s, t)
  {
    Here(s);
    t := Then(s, s, ReadRow(w));
    t := Then(s, t, MarkSending(w));
  }

  /** The send and the final write. */
  lemma SendRuns(s: State, w: nat, id: nat, retries: nat, outcome: Outcome, elapsed: nat) returns (t: State)
    requires w < |s.workers| && s.workers[w] == Transmitting(id, retries) && id in s.rows
    ensures t == Go(s.(calls := s.calls + [(id, outcome)], now := s.now + elapsed,
                       rows := s.rows[id := AfterSend(s.rows[id], retries, outcome, s.now + elapsed)]),
                    w, Recording(id, retries, outcome))
    ensures Leads(s, t)
  {
    Here(s);
    t := Then(s, s, Transmit(w, outcome));
    t := Then(s, t, Tick(elapsed));
    t := Then(s, t, WriteRow(w));
  }

  lemma RecordRuns(s: State, w: nat, id: nat, retries: nat, outcome: Outcome) returns (t: State)
    requires w < |s.workers| && s.workers[w] == Recording(id, retries, outcome) && id in s.rows
    ensures var bit := if outcome == Ok then 1 else 0;
            t == Go(s.(events := s.events + EventsAfter(id, retries, outcome),
                       suppressions := if outcome == Smtp(true) then s.suppressions + [(s.rows[id].user, s.rows[id].to)]
                                       else s.suppressions,
                       sentCount := s.sentCount + bit, added := s.added + bit), w, Idle)
    ensures Leads(s, t)
  {
    Here(s);
    t := Then(s, s, Record(w));
    if outcome == Ok { t := Then(s, t, AddCounter(w)); }
  }

  lemma AttemptRuns(s: State, w: nat, id: nat, outcome: Outcome, elapsed: nat)
    requires w < |s.workers| && s.workers[w] == Reading(id) && id in s.rows && !Processed(s.rows[id].status)
    ensures Leads(s, Go(Attempt(s, id, outcome, elapsed), w, Idle))
  {
    var retries := s.rows[id].retries;
    var t := MarkRuns(s, w, id);
    var u := SendRuns(t, w, id, retries, outcome, elapsed);
    LeadsOn(s, t, u);
    var v := RecordRuns(u, w, id, retries, outcome);
    LeadsOn(s, u, v);
    assert v == Go(Attempt(s, id, outcome, elapsed), w, Idle);
  }

  lemma AdmittedFinishes(r: State, w: nat, id: nat, outcome: Outcome, elapsed: nat)
    requires w < |r.workers| && r.workers[w] == Idle
    ensures Leads(Go(r, w, Reading(id)),
                  if id !in r.rows || Processed(r.rows[id].status) then r else Attempt(r, id, outcome, elapsed))
  {
    var t := Go(r, w, Reading(id));
    if id in r.rows && !Processed(r.rows[id].status) {
      AttemptRuns(t, w, id, outcome, elapsed);
      assert Go(Attempt(t, id, outcome, elapsed), w, Idle) == Attempt(r, id, outcome, elapsed);
    } else {
      Here(t);
      var u := Then(t, t, ReadRow(w));
      assert u == r;
    }
  }

  /** The atomic process is what one uninterrupted worker does, step by step. */
  lemma ProcessIsAStretch(s: State, w: nat, outcome: Outcome, elapsed: nat)
    requires AllIdle(s) && w < |s.workers| && s.pending != []
    ensures Leads(s, ProcessHead(s, w, outcome, elapsed)) && AllIdle(ProcessHead(s, w, outcome, elapsed))
  {
    var t := AdmittedRuns(s, w);
    var r := AfterReset(s.(pending := s.pending[1..]), w);
    if !AtLimit(r) {
      AdmittedFinishes(r, w, s.pending[0], outcome, elapsed);
      LeadsOn(s, t, ProcessHead(s, w, outcome, elapsed));
    }
  }

  /** So every theorem about interleavings holds of serial runs. */
  lemma {:induction false} SerialIsAnInterleaving(s: State, turns: seq<Turn>)
    requires AllIdle(s) && Turns(s, turns)
    ensures Leads(s, TakeAll(s, turns)) && AllIdle(TakeAll(s, turns))
    decreases |turns|
  {
    if turns == [] {
      Here(s);
    } else {
      var t := Take(s, turns[0]);
      if turns[0].Process? {
        ProcessIsAStretch(s, turns[0].w, turns[0].outcome, turns[0].elapsed);
      } else {
        Here(s);
        var _ := Then(s, s, turns[0].step);
      }
      SerialIsAnInterleaving(t, turns[1..]);
      LeadsOn(s, t, TakeAll(t, turns[1..]));
    }
  }
}
