/**
  The Queue object of worker.go.  Its methods are proved against the atomic steps of the serial
  machine, which in turn are stretches of the concurrent one.
  */
module Queue {
  import opened Wrappers
  import opened Delivery
  import opened Serial
  import opened Recovery

  /** What a worker gets back from its sends, one entry per message it takes. */
  type Script = seq<(Outcome, nat)>

  ghost function WorkAll(s: State, w: nat, script: Script): State
    requires w < |s.zeroed|
    decreases |script|
  {
    if script == [] || s.pending == [] then s
    else WorkAll(ProcessHead(s, w, script[0].0, script[0].1), w, script[1..])
  }

  lemma WorkEnds(s: State, w: nat, script: Script)
    requires w < |s.zeroed| && (script == [] || s.pending == [])
    ensures WorkAll(s, w, script) == s
  {
  }

  lemma WorkOne(s: State, w: nat, script: Script, i: nat)
    requires w < |s.zeroed| && i < |script| && s.pending != []
    ensures var t := ProcessHead(s, w, script[i].0, script[i].1);
            |t.zeroed| == |s.zeroed| && WorkAll(s, w, script[i..]) == WorkAll(t, w, script[i + 1..])
  {
    assert script[i..][0] == script[i] && script[i..][1..] == script[i + 1..];
  }

  /** A scheduler tick with no other goroutine running: the query, then pushes while there is room. */
  function TickTurns(result: seq<nat>, pushes: nat): seq<Turn> {
    [Outside(Query(result))] + seq(pushes, i => Outside(Push))
  }

  class DeliveryQueue {
    const maxPerHour: int
    var pending: seq<nat>
    var batch: seq<nat>
    var sleepers: multiset<nat>
    var sentCount: int
    var lastReset: int
    var clock: int
    var rows: map<nat, Row>
    var events: seq<Event>
    var suppressions: seq<(string, string)>
    ghost const started: int
    ghost var workers: nat
    ghost var handlers: multiset<nat>
    ghost var calls: seq<(nat, Outcome)>
    ghost var zeroed: seq<nat>
    ghost var added: nat

    ghost function View(): State
      reads this
    {
      State(maxPerHour, pending, seq(workers, i => Idle), sleepers, batch, handlers, sentCount, lastReset, clock,
            rows, events, suppressions, started, calls, zeroed, added)
    }

    /** New, on a database left by an earlier process. */
    constructor (rows: map<nat, Row>, maxPerHour: int, now: int)
      ensures View() == Boot(rows, [], maxPerHour, 0, now)
    {
      this.maxPerHour, this.rows := maxPerHour, rows;
      pending, batch, sleepers, sentCount, lastReset, clock := [], [], multiset{}, 0, now, now;
      events, suppressions := [], [];
      started, workers, handlers, calls, zeroed, added := now, 0, multiset{}, [], [], 0;
    }

    /** Start returns, leaving the freshly booted state, exactly when the recovered rows fit the channel. */
    method Start(order: seq<nat>, n: nat) returns (blocked: bool)
      requires View() == Boot(rows, [], maxPerHour, 0, clock)
      requires RecoveryOrder(rows, clock, order)
      modifies this
      ensures blocked <==> |order| > 10_000
      ensures !blocked ==> View() == Boot(old(rows), order, maxPerHour, n, old(clock))
      ensures !blocked ==> pending == order && workers == n && rows == old(rows)
    {
      pending, blocked := PushRecovered(order);
      if !blocked {
        workers := n;
        zeroed := seq(n, i => 0);
      }
    }

    method Enqueue(id: nat)
      requires id in handlers && |pending| < CAPACITY
      modifies this
      ensures View() == Apply(old(View()), Delivery.Enqueue(id))
      ensures pending == old(pending) + [id]
    {
      pending := pending + [id];
      handlers := handlers - multiset{id};
    }

    /** From the mark on: the send with the given result, and the writes that follow it. */
    method Deliver(id: nat, outcome: Outcome, elapsed: nat)
      requires id in rows
      modifies `rows, `calls, `clock, `events, `suppressions, `sentCount, `added
      ensures clock == old(clock) + elapsed && calls == old(calls) + [(id, outcome)]
      ensures rows == old(rows)[id := AfterSend(old(rows)[id], old(rows)[id].retries, outcome, clock)]
      ensures events == old(events) + EventsAfter(id, old(rows)[id].retries, outcome)
      ensures suppressions == if outcome == Smtp(true) then old(suppressions) + [(old(rows)[id].user, old(rows)[id].to)]
                              else old(suppressions)
      ensures sentCount == old(sentCount) + (if outcome == Ok then 1 else 0)
      ensures added == old(added) + if outcome == Ok then 1 else 0
      ensures outcome == Ok ==> rows[id] == old(rows[id]).(status := Sent, sentAt := Some(clock))
      ensures outcome == Smtp(false) && old(rows[id].retries) < 3 ==>
                && rows[id] == old(rows[id]).(status := Queued, retries := old(rows[id].retries) + 1, nextRetry := rows[id].nextRetry)
                && rows[id].nextRetry == Some(clock + 60 * [5, 10, 20][old(rows[id].retries)])
                && events == old(events) + [Event(id, DeferredEvent)]
      ensures outcome == Other || outcome == Smtp(true) || (outcome == Smtp(false) && old(rows[id].retries) >= 3) ==>
                && rows[id] == old(rows[id]).(status := Failed)
                && events == old(events) + [Event(id, FailedEvent)] + if outcome == Smtp(true) then [Event(id, BouncedEvent)] else []
    {
      var msg := rows[id];
      rows := rows[id := msg.(status := Sending)];
      calls := calls + [(id, outcome)];
      clock := clock + elapsed;
      ghost var after := AfterSend(msg, msg.retries, outcome, clock);
      Overwrite(old(rows), id, msg.(status := Sending), after);
      if outcome == Ok {
        rows := rows[id := rows[id].(status := Sent, sentAt := Some(clock))];
        events := events + [Event(id, SentEvent)];
        sentCount := sentCount + 1;
        added := added + 1;
        assert rows[id] == after;
      } else if outcome.Smtp? && !outcome.permanent && msg.retries < MAX_RETRIES {
        var backoff := DoublingBackoff(msg.retries);
        rows := rows[id := rows[id].(status := Queued, retries := msg.retries + 1, nextRetry := Some(clock + backoff))];
        events := events + [Event(id, DeferredEvent)];
        assert rows[id] == after;
      } else {
        rows := rows[id := rows[id].(status := Failed)];
        assert rows[id] == after;
        events := events + [Event(id, FailedEvent)];
        if outcome.Smtp? && outcome.permanent {
          suppressions := suppressions + [(msg.user, msg.to)];
          events := events + [Event(id, BouncedEvent)];
          assert events == old(events) + EventsAfter(id, msg.retries, outcome);
        }
      }
    }

    /** The same, seen as one attempt on the whole state. */
    method Settle(id: nat, outcome: Outcome, elapsed: nat)
      requires id in rows
      modifies `rows, `calls, `clock, `events, `suppressions, `sentCount, `added
      ensures View() == Attempt(old(View()), id, outcome, elapsed)
    {
      Deliver(id, outcome, elapsed);
    }

    /** The warm-up limit: reset the counter when the hour is over, and park the id at the limit. */
    method Admit(id: nat, ghost w: nat) returns (admitted: bool)
      requires w < |zeroed|
      modifies `sentCount, `zeroed, `lastReset, `sleepers
      ensures var t := AfterReset(old(View()), w);
              && admitted == !AtLimit(t)
              && View() == if admitted then t else t.(sleepers := t.sleepers + multiset{id})
      ensures var due := maxPerHour > 0 && clock - old(lastReset) > 3600;
              && lastReset == (if due then clock else old(lastReset)) && sentCount == (if due then 0 else old(sentCount))
              && (admitted <==> maxPerHour <= 0 || sentCount < maxPerHour)
              && sleepers == old(sleepers) + if admitted then multiset{} else multiset{id}
    {
      if maxPerHour > 0 {
        if clock - lastReset > HOUR {
          sentCount := 0;
          zeroed := zeroed[w := zeroed[w] + 1];
          lastReset := clock;
        }
        if sentCount >= maxPerHour {
          sleepers := sleepers + multiset{id};
          return false;
        }
      }
      admitted := true;
    }

    method Process(id: nat, ghost w: nat, outcome: Outcome, elapsed: nat)
      requires w < |zeroed|
      modifies this
      ensures View() == ProcessId(old(View()), id, w, outcome, elapsed)
    {
      var admitted := Admit(id, w);
      if !admitted || id !in rows {
        return;
      }
      if rows[id].status == Sent || rows[id].status == Delivered || rows[id].status == Failed {
        return;
      }
      Settle(id, outcome, elapsed);
    }

    method TakeNext(ghost w: nat, outcome: Outcome, elapsed: nat)
      requires w < |zeroed| && pending != []
      modifies this
      ensures View() == ProcessHead(old(View()), w, outcome, elapsed)
      ensures |zeroed| == old(|zeroed|)
    {
      var id := pending[0];
      pending := pending[1..];
      ghost var before := View();
      Process(id, w, outcome, elapsed);
      assert View() == ProcessId(before, id, w, outcome, elapsed);
    }

    /** The loop of a worker that runs alone, until the channel is empty or its script ends. */
    method Worker(ghost w: nat, script: Script)
      requires w < |zeroed|
      modifies this
      ensures View() == WorkAll(old(View()), w, script)
    {
      var i := 0;
      ghost var result := WorkAll(View(), w, script);
      assert script[0..] == script;
      while i < |script| && pending != []
        invariant i <= |script| && w < |zeroed|
        invariant WorkAll(View(), w, script[i..]) == result
      {
        WorkOne(View(), w, script, i);
        TakeNext(w, script[i].0, script[i].1);
        i := i + 1;
      }
      WorkEnds(View(), w, script[i..]);
    }

    /**
      One tick of the retry scheduler that runs alone.  It pushes the selected rows in order; when
      the channel is full it blocks on the next one, with the rest still in hand.
      */
    method SchedulerTick(result: seq<nat>) returns (blocked: bool)
      requires batch == [] && QueryResult(View(), result) && |pending| <= CAPACITY
      modifies `pending, `batch
      ensures blocked <==> old(|pending|) + |result| > 10_000
      ensures var pushes := if blocked then CAPACITY - old(|pending|) else |result|;
              && Turns(old(View()), TickTurns(result, pushes))
              && View() == TakeAll(old(View()), TickTurns(result, pushes))
              && pending == old(pending) + result[..pushes] && batch == result[pushes..]
    {
      ghost var before := View();
      TickIs(before, result, if |pending| + |result| > CAPACITY then CAPACITY - |pending| else |result|);
      batch := result;
      while batch != [] && |pending| < CAPACITY
        invariant |batch| <= |result| && |before.pending| + |result| == |pending| + |batch|
        invariant |pending| <= CAPACITY
        invariant pending == before.pending + result[..|result| - |batch|] && batch == result[|result| - |batch|..]
        decreases |batch|
      {
        pending := pending + [batch[0]];
        batch := batch[1..];
      }
      blocked := batch != [];
    }
  }

  lemma TickIs(s: State, result: seq<nat>, pushes: nat)
    requires s.batch == [] && QueryResult(s, result) && pushes <= |result| && |s.pending| + pushes <= CAPACITY
    ensures Turns(s, TickTurns(result, pushes))
    ensures TakeAll(s, TickTurns(result, pushes))
         == s.(pending := s.pending + result[..pushes], batch := result[pushes..])
  {
    var queried := s.(batch := result);
    assert Take(s, Outside(Query(result))) == queried;
    PushSome(queried, pushes);
    assert TickTurns(result, pushes)[1..] == seq(pushes, i => Outside(Push));
  }

  lemma Overwrite<K, V>(m: map<K, V>, k: K, a: V, b: V)
    ensures m[k := a][k := b] == m[k := b]
  {
  }

  /** 1 << retries, shifted one place at a time, times five minutes; three waits are ever used. */
  method DoublingBackoff(retries: nat) returns (seconds: nat)
    ensures seconds == Pow2(retries) * FIVE_MINUTES
    ensures retries < MAX_RETRIES ==> seconds == 60 * [5, 10, 20][retries]
  {
    var power := 1;
    for i := 0 to retries
      invariant power == Pow2(i)
    {
      power := power + power;
    }
    seconds := power * FIVE_MINUTES;
    assert Pow2(1) == 2 && Pow2(2) == 2 * Pow2(1);
  }

  lemma {:induction false} PushSome(s: State, n: nat)
    requires n <= |s.batch| && |s.pending| + n <= CAPACITY
    ensures Turns(s, seq(n, i => Outside(Push)))
    ensures TakeAll(s, seq(n, i => Outside(Push))) == s.(pending := s.pending + s.batch[..n], batch := s.batch[n..])
    decreases n
  {
    var turns := seq(n, i => Outside(Push));
    if n == 0 {
      assert s.pending + s.batch[..0] == s.pending;
    } else {
      var t := Take(s, Outside(Push));
      PushSome(t, n - 1);
      assert turns[1..] == seq(n - 1, i => Outside(Push));
      assert t.pending + t.batch[..n - 1] == s.pending + s.batch[..n];
      assert t.batch[n - 1..] == s.batch[n..];
    }
  }
}
