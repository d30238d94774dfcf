/**
  The warm-up bounds are the best possible: runs in which they are reached, for every limit and
  every number of workers.
  */
module Attained {
  import opened Wrappers
  import opened Tally
  import opened Delivery
  import opened Serial
  import opened Warmup

  predicate Unreset(s: State) { |s.zeroed| == |s.workers| && forall w :: 0 <= w < |s.zeroed| ==> s.zeroed[w] == 0 }

  ghost predicate Numbered(s: State, n: nat) { forall id: nat :: id in s.rows <==> id < n }

  /** A state of the runs below: n messages exist, sent of them have left, and no time has passed. */
  ghost predicate Staged(s: State, maxPerHour: int, workers: nat, n: nat, sent: nat) {
    && s.maxPerHour == maxPerHour && |s.workers| == workers && Unreset(s) && Numbered(s, n)
    && s.pending == [] && s.lastReset == s.now && Successes(s.calls) == sent
  }

  lemma Arrives(boot: State, s: State, id: nat) returns (t: State)
    requires Leads(boot, s) && id !in s.rows && |s.pending| < CAPACITY
    ensures Leads(boot, t)
    ensures t == s.(rows := s.rows[id := Row("u", "a@b", Queued, 0, None, None)], pending := s.pending + [id])
  {
    t := Then(boot, s, Create(id, "u", "a@b", false));
    t := Then(boot, t, Enqueue(id));
  }

  lemma SendsOneMore(boot: State, r: State, maxPerHour: int, workers: nat, n: nat) returns (s: State)
    requires Leads(boot, r) && Staged(r, maxPerHour, workers, n, n) && AllIdle(r) && r.sentCount == n < maxPerHour && workers > 0
    ensures Leads(boot, s) && Staged(s, maxPerHour, workers, n + 1, n + 1) && AllIdle(s) && s.sentCount == n + 1
  {
    var t := Arrives(boot, r, n);
    assert t.pending == [n] && [n][1..] == [];
    s := ProcessHead(t, 0, Ok, 0);
    ProcessIsAStretch(t, 0, Ok, 0);
    LeadsOn(boot, t, s);
    SuccessesAppend(r.calls, n, Ok);
    assert s == Attempt(t.(pending := []), n, Ok, 0);
  }

  /** The first worker sends the first n messages, one after the other, below the limit. */
  lemma {:induction false} SendsAlone(maxPerHour: int, workers: nat, now: int, n: nat) returns (s: State)
    requires workers > 0 && n <= maxPerHour
    ensures Leads(Boot(map[], [], maxPerHour, workers, now), s)
    ensures Staged(s, maxPerHour, workers, n, n) && AllIdle(s) && s.sentCount == n
  {
    var boot := Boot(map[], [], maxPerHour, workers, now);
    if n == 0 {
      Here(boot);
      s := boot;
    } else {
      s := SendsAlone(maxPerHour, workers, now, n - 1);
      s := SendsOneMore(boot, s, maxPerHour, workers, n - 1);
    }
  }

  /** A worker past the limiter, about to read the row of its own message. */
  predicate Waits(s: State, first: nat, w: nat)
    requires w < |s.workers|
  {
    s.workers[w] == Reading(first + w) && first + w in s.rows && s.rows[first + w].status == Queued
  }

  /** Workers below k have passed the limiter with a message each; the others are idle. */
  predicate Admits(s: State, first: nat, k: nat) {
    && k <= |s.workers|
    && (forall w :: 0 <= w < k ==> Waits(s, first, w))
    && (forall w :: k <= w < |s.workers| ==> s.workers[w].Idle?)
  }

  lemma AdmitsOneMore(boot: State, r: State, maxPerHour: int, workers: nat, k: nat) returns (s: State)
    requires Leads(boot, r) && maxPerHour > 0 && Staged(r, maxPerHour, workers, maxPerHour - 1 + k, maxPerHour - 1)
    requires k < workers && r.sentCount == maxPerHour - 1 && Admits(r, maxPerHour - 1, k)
    ensures Leads(boot, s) && Staged(s, maxPerHour, workers, maxPerHour - 1 + (k + 1), maxPerHour - 1)
    ensures s.sentCount == maxPerHour - 1 && Admits(s, maxPerHour - 1, k + 1)
  {
    var first := maxPerHour - 1;
    var id := first + k;
    var t := Arrives(boot, r, id);
    assert t.pending == [id] && [id][1..] == [];
    s := AdmittedRuns(t, k);
    LeadsOn(boot, t, s);
    assert s == Go(t.(pending := []), k, Reading(id));
    forall w | 0 <= w <= k ensures Waits(s, first, w) {
      if w < k { assert Waits(r, first, w); }
    }
  }

  /** One below the limit, every worker still gets past it. */
  lemma {:induction false} AllAdmitted(maxPerHour: int, workers: nat, now: int, k: nat) returns (s: State)
    requires workers > 0 && maxPerHour > 0 && k <= workers
    ensures Leads(Boot(map[], [], maxPerHour, workers, now), s)
    ensures Staged(s, maxPerHour, workers, maxPerHour - 1 + k, maxPerHour - 1)
    ensures s.sentCount == maxPerHour - 1 && Admits(s, maxPerHour - 1, k)
  {
    if k == 0 {
      s := SendsAlone(maxPerHour, workers, now, maxPerHour - 1);
    } else {
      s := AllAdmitted(maxPerHour, workers, now, k - 1);
      s := AdmitsOneMore(Boot(map[], [], maxPerHour, workers, now), s, maxPerHour, workers, k - 1);
    }
  }

  /** Workers below k have sent; those from k on still wait to read their rows. */
  predicate Sends(s: State, first: nat, k: nat) {
    k <= |s.workers| && forall w :: k <= w < |s.workers| ==> Waits(s, first, w)
  }

  /** Marking and sending one message leaves the other workers and their rows alone. */
  lemma OthersWait(r: State, s: State, first: nat, k: nat, w: nat)
    requires k < |r.workers| == |s.workers| && w < |r.workers| && w != k && Waits(r, first, w)
    requires s.workers[w] == r.workers[w] && s.rows.Keys == r.rows.Keys
    requires forall id :: id in r.rows && id != first + k ==> s.rows[id] == r.rows[id]
    ensures Waits(s, first, w)
  {
    assert first + w != first + k;
  }

  lemma OneSends(boot: State, r: State, first: nat, k: nat) returns (s: State)
    requires Leads(boot, r) && Sends(r, first, k) && k < |r.workers| && Unreset(r)
    ensures Leads(boot, s) && Sends(s, first, k + 1) && |s.workers| == |r.workers| && Unreset(s)
    ensures Successes(s.calls) == Successes(r.calls) + 1
  {
    assert Waits(r, first, k);
    var t := MarkRuns(r, k, first + k);
    LeadsOn(boot, r, t);
    s := Then(boot, t, Transmit(k, Ok));
    SuccessesAppend(r.calls, first + k, Ok);
    assert s.rows == t.rows && s.calls == r.calls + [(first + k, Ok)];
    assert forall w :: 0 <= w < |r.workers| && w != k ==> s.workers[w] == r.workers[w];
    forall w | k < w < |s.workers| ensures Waits(s, first, w) { OthersWait(r, s, first, k, w); }
  }

  lemma {:induction false} AllSend(maxPerHour: int, workers: nat, now: int, k: nat) returns (s: State)
    requires workers > 0 && maxPerHour > 0 && k <= workers
    ensures Leads(Boot(map[], [], maxPerHour, workers, now), s)
    ensures |s.workers| == workers && Unreset(s)
    ensures Sends(s, maxPerHour - 1, k) && Successes(s.calls) == maxPerHour - 1 + k
  {
    if k == 0 {
      s := AllAdmitted(maxPerHour, workers, now, workers);
    } else {
      var r := AllSend(maxPerHour, workers, now, k - 1);
      s := OneSends(Boot(map[], [], maxPerHour, workers, now), r, maxPerHour - 1, k - 1);
    }
  }

  /** The bound is reached: a run without any reset in which maxPerHour + workers - 1 messages leave. */
  lemma BurstAttained(maxPerHour: int, workers: nat, now: int) returns (steps: seq<Step>)
    requires maxPerHour > 0 && workers > 0
    ensures Runs(Boot(map[], [], maxPerHour, workers, now), steps)
    ensures var s := Run(Boot(map[], [], maxPerHour, workers, now), steps);
            Resets(s) == 0 && Successes(s.calls) == maxPerHour + workers - 1
  {
    var boot := Boot(map[], [], maxPerHour, workers, now);
    var s := AllSend(maxPerHour, workers, now, workers);
    steps :| Runs(boot, steps) && Run(boot, steps) == s;
    ZeroSum(s.zeroed, Itself());
  }

  /** Every run stays within the limit per reset. */
  ghost predicate Respects(maxPerHour: int, workers: nat, now: int) {
    forall steps | Runs(Boot(map[], [], maxPerHour, workers, now), steps) ::
      var s := Run(Boot(map[], [], maxPerHour, workers, now), steps);
      Successes(s.calls) <= (Resets(s) + 1) * maxPerHour
  }

  /** The limit per reset is kept by every run if and only if there is one worker. */
  lemma LimitKeptIffOneWorker(maxPerHour: int, workers: nat, now: int)
    requires maxPerHour > 0 && workers > 0
    ensures Respects(maxPerHour, workers, now) <==> workers == 1
  {
    var boot := Boot(map[], [], maxPerHour, workers, now);
    if workers == 1 {
      forall steps | Runs(boot, steps)
        ensures Successes(Run(boot, steps).calls) <= (Resets(Run(boot, steps)) + 1) * maxPerHour
      {
        WarmupBoundUnderRaces(map[], [], maxPerHour, workers, now, steps);
      }
    } else {
      var steps := BurstAttained(maxPerHour, workers, now);
      assert Runs(boot, steps);
    }
  }

  // Resets

  /** More than an hour after the start, workers below k have decided to reset and none has yet. */
  ghost predicate Deciding(s: State, k: nat) {
    && k <= |s.workers| && Unreset(s) && s.maxPerHour > 0 && s.pending == [] && Numbered(s, k)
    && s.now - s.lastReset > HOUR
    && (forall w :: 0 <= w < k ==> s.workers[w].Zeroing?)
    && (forall w :: k <= w < |s.workers| ==> s.workers[w].Idle?)
  }

  lemma OneDecides(boot: State, r: State, k: nat) returns (s: State)
    requires Leads(boot, r) && Deciding(r, k) && k < |r.workers|
    ensures Leads(boot, s) && Deciding(s, k + 1) && |s.workers| == |r.workers| && s.now == r.now
  {
    s := Arrives(boot, r, k);
    assert s.pending == [k] && [k][1..] == [];
    s := Then(boot, s, Dequeue(k));
    s := Then(boot, s, TestReset(k));
  }

  lemma {:induction false} AllDecide(maxPerHour: int, workers: nat, now: int, k: nat) returns (s: State)
    requires maxPerHour > 0 && k <= workers
    ensures Leads(Boot(map[], [], maxPerHour, workers, now), s) && Deciding(s, k) && |s.workers| == workers
    ensures s.now == now + HOUR + 1
  {
    var boot := Boot(map[], [], maxPerHour, workers, now);
    if k == 0 {
      Here(boot);
      s := Then(boot, boot, Tick(HOUR + 1));
    } else {
      s := AllDecide(maxPerHour, workers, now, k - 1);
      s := OneDecides(boot, s, k - 1);
    }
  }

  lemma {:induction false} AllReset(maxPerHour: int, workers: nat, now: int, k: nat) returns (s: State)
    requires maxPerHour > 0 && k <= workers
    ensures Leads(Boot(map[], [], maxPerHour, workers, now), s) && s.now == now + HOUR + 1
    ensures |s.workers| == workers == |s.zeroed|
    ensures forall w :: 0 <= w < workers ==> s.zeroed[w] == if w < k then 1 else 0
    ensures forall w :: k <= w < workers ==> s.workers[w].Zeroing?
  {
    if k == 0 {
      s := AllDecide(maxPerHour, workers, now, workers);
    } else {
      s := AllReset(maxPerHour, workers, now, k - 1);
      s := Then(Boot(map[], [], maxPerHour, workers, now), s, StoreZero(k - 1));
    }
  }

  lemma {:induction false} OnesSum(xs: seq<nat>)
    requires forall i :: 0 <= i < |xs| ==> xs[i] == 1
    ensures Sum(xs, Itself()) == |xs|
  {
    if xs != [] { OnesSum(xs[1..]); }
  }

  /** One hour and one reset by every worker: the bound on resets is reached as well. */
  lemma ResetsAttained(maxPerHour: int, workers: nat, now: int) returns (steps: seq<Step>)
    requires maxPerHour > 0
    ensures Runs(Boot(map[], [], maxPerHour, workers, now), steps)
    ensures var s := Run(Boot(map[], [], maxPerHour, workers, now), steps);
            (s.now - now) / 3600 == 1 && Resets(s) == workers
  {
    var boot := Boot(map[], [], maxPerHour, workers, now);
    var s := AllReset(maxPerHour, workers, now, workers);
    steps :| Runs(boot, steps) && Run(boot, steps) == s;
    OnesSum(s.zeroed);
  }
}
