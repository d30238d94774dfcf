/**
  The event hub: bounded fan-out to the open streams of a user.  Publish is one step, so the
  snapshot of targets and the sends to them cannot be separated by an unsubscribe.
  */
module Hub {
  import opened Wrappers

  const BUFFER: nat := 16

  datatype Event = Event(kind: string, notification: Option<string>, unread: Option<nat>)

  /** What the channel of one subscriber holds. */
  datatype Chan = Chan(user: string, buffer: seq<Event>, closed: bool)

  /**
    The history of one stream: the length of the log when it was subscribed and, once closed, when
    it was unsubscribed; the events its reader took; and whether each event meant for it was kept.
    */
  datatype Note = Note(since: nat, until: nat, received: seq<Event>, fate: seq<bool>)

  datatype Publication = Publication(user: string, event: Event, except: string)

  /** subs, chans and nextID are the hub; log and notes only record what happened. */
  datatype State = State(subs: map<string, set<nat>>, chans: map<nat, Chan>, nextID: nat,
                         log: seq<Publication>, notes: map<nat, Note>)

  datatype Op =
    | Subscribe(user: string)
    | Unsubscribe(id: nat)
    | Publish(user: string, event: Event, except: string)
    | Receive(id: nat)

  const EMPTY := State(map[], map[], 0, [], map[])

  function Digit(n: nat): char
    requires n < 10
  {
    (n + '0' as int) as char
  }

  function Decimal(n: nat): string {
    if n < 10 then [Digit(n)] else Decimal(n / 10) + [Digit(n % 10)]
  }

  function ConnID(n: nat): string { "c" + Decimal(n) }

  lemma {:induction false} DecimalInjective(m: nat, n: nat)
    ensures Decimal(m) == Decimal(n) <==> m == n
  {
    if m >= 10 && n >= 10 {
      DecimalInjective(m / 10, n / 10);
      var a, b := Decimal(m / 10), Decimal(n / 10);
      if Decimal(m) == Decimal(n) {
        assert (a + [Digit(m % 10)])[..|a|] == a && (b + [Digit(n % 10)])[..|b|] == b;
        assert Decimal(m)[|a|] == Digit(m % 10);
      }
    } else if m >= 10 {
      assert |Decimal(m / 10)| > 0;
    } else if n >= 10 {
      assert |Decimal(n / 10)| > 0;
    }
  }

  /** Connection ids are unique, so an exception names at most one subscriber. */
  lemma ConnIDInjective(m: nat, n: nat)
    ensures ConnID(m) == ConnID(n) <==> m == n
  {
    DecimalInjective(m, n);
    assert ConnID(m)[1..] == Decimal(m) && ConnID(n)[1..] == Decimal(n);
  }

  predicate Enabled(s: State, op: Op) {
    match op
    case Subscribe(_) => true
    case Unsubscribe(id) => id in s.chans && id in s.notes && !s.chans[id].closed
    case Publish(_, _, _) => true
    case Receive(id) => id in s.chans && id in s.notes && s.chans[id].buffer != []
  }

  /** The subscribers a publication goes to. */
  function Targets(s: State, user: string, except: string): set<nat> {
    if user !in s.subs then {} else set id | id in s.subs[user] && (except == "" || ConnID(id) != except)
  }

  function Without(subs: map<string, set<nat>>, user: string, id: nat): map<string, set<nat>> {
    if user !in subs then subs
    else if subs[user] - {id} == {} then subs - {user}
    else subs[user := subs[user] - {id}]
  }

  /** A non-blocking send: the event is queued if there is room and dropped otherwise. */
  function Offer(c: Chan, event: Event): Chan {
    if |c.buffer| < BUFFER then c.(buffer := c.buffer + [event]) else c
  }

  function Apply(s: State, op: Op): State
    requires Enabled(s, op)
  {
    match op
    case Subscribe(user) =>
      var id := s.nextID + 1;
      s.(nextID := id,
         subs := s.subs[user := (if user in s.subs then s.subs[user] else {}) + {id}],
         chans := s.chans[id := Chan(user, [], false)],
         notes := s.notes[id := Note(|s.log|, |s.log|, [], [])])
    case Unsubscribe(id) =>
      s.(subs := Without(s.subs, s.chans[id].user, id),
         chans := s.chans[id := s.chans[id].(closed := true)],
         notes := s.notes[id := s.notes[id].(until := |s.log|)])
    case Publish(user, event, except) =>
      var targets := Targets(s, user, except);
      s.(chans := map id | id in s.chans :: if id in targets then Offer(s.chans[id], event) else s.chans[id],
         notes := map id | id in s.notes ::
                    if id in targets && id in s.chans
                    then s.notes[id].(fate := s.notes[id].fate + [|s.chans[id].buffer| < BUFFER])
                    else s.notes[id],
         log := s.log + [Publication(user, event, except)])
    case Receive(id) =>
      var c := s.chans[id];
      s.(chans := s.chans[id := c.(buffer := c.buffer[1..])],
         notes := s.notes[id := s.notes[id].(received := s.notes[id].received + [c.buffer[0]])])
  }

  predicate Runs(s: State, ops: seq<Op>)
    decreases |ops|
  {
    ops == [] || (Enabled(s, ops[0]) && Runs(Apply(s, ops[0]), ops[1..]))
  }

  function Run(s: State, ops: seq<Op>): State
    requires Runs(s, ops)
    decreases |ops|
  {
    if ops == [] then s else Run(Apply(s, ops[0]), ops[1..])
  }

  // What a stream should have seen

  predicate MeantFor(p: Publication, user: string, conn: string) {
    p.user == user && (p.except == "" || p.except != conn)
  }

  /** The events of a stretch of the log that are meant for a stream, in order. */
  function Addressed(log: seq<Publication>, user: string, conn: string): seq<Event> {
    if log == [] then []
    else
      var last := log[|log| - 1];
      Addressed(log[..|log| - 1], user, conn) + if MeantFor(last, user, conn) then [last.event] else []
  }

  /** The events of xs whose flag is set. */
  function Keep<T>(xs: seq<T>, flags: seq<bool>): seq<T>
    requires |xs| == |flags|
  {
    if xs == [] then []
    else Keep(xs[..|xs| - 1], flags[..|xs| - 1]) + if flags[|xs| - 1] then [xs[|xs| - 1]] else []
  }

  function Lost(flags: seq<bool>): nat {
    if flags == [] then 0 else Lost(flags[..|flags| - 1]) + if flags[|flags| - 1] then 0 else 1
  }

  /** at picks strictly rising positions of xs at which the elements of part stand. */
  ghost predicate Embeds<T>(part: seq<T>, xs: seq<T>, at: seq<nat>) {
    && |at| == |part|
    && (forall i :: 0 <= i < |at| ==> at[i] < |xs| && xs[at[i]] == part[i])
    && (forall i, j :: 0 <= i < j < |at| ==> at[i] < at[j])
  }

  lemma {:induction false} KeepEmbeds<T>(xs: seq<T>, flags: seq<bool>) returns (at: seq<nat>)
    requires |xs| == |flags|
    ensures Embeds(Keep(xs, flags), xs, at)
  {
    if xs == [] {
      at := [];
    } else {
      var n := |xs| - 1;
      at := KeepEmbeds(xs[..n], flags[..n]);
      at := at + if flags[n] then [n] else [];
    }
  }

  lemma {:induction false} KeepCounts<T>(xs: seq<T>, flags: seq<bool>)
    requires |xs| == |flags|
    ensures |Keep(xs, flags)| + Lost(flags) == |xs|
    ensures Lost(flags) == 0 ==> Keep(xs, flags) == xs
  {
    if xs != [] {
      var n := |xs| - 1;
      KeepCounts(xs[..n], flags[..n]);
      assert xs == xs[..n] + [xs[n]];
    }
  }

  /** The events published for a stream while it was subscribed. */
  function Expected(s: State, id: nat): seq<Event>
    requires id in s.chans && id in s.notes && Window(s, id)
  {
    Addressed(s.log[s.notes[id].since..End(s, id)], s.chans[id].user, ConnID(id))
  }

  function End(s: State, id: nat): nat
    requires id in s.chans && id in s.notes
  {
    if s.chans[id].closed then s.notes[id].until else |s.log|
  }

  predicate Window(s: State, id: nat)
    requires id in s.chans && id in s.notes
  {
    s.notes[id].since <= End(s, id) <= |s.log|
  }

  /** The account of one stream: every event meant for it was received, is buffered, or was dropped. */
  predicate Accounted(s: State, id: nat)
    requires id in s.chans && id in s.notes
  {
    var c, n := s.chans[id], s.notes[id];
    && Window(s, id)
    && |n.fate| == |Expected(s, id)|
    && Keep(Expected(s, id), n.fate) == n.received + c.buffer
    && |c.buffer| <= BUFFER
    && (Lost(n.fate) > 0 ==> |n.received + c.buffer| >= BUFFER)
  }

  predicate Registered(s: State, user: string, id: nat) { user in s.subs && id in s.subs[user] }

  /** The registry lists exactly the open streams, under their own user, and keeps no empty entry. */
  ghost predicate Tidy(s: State) {
    && s.chans.Keys == s.notes.Keys
    && (forall id :: id in s.chans ==> 0 < id <= s.nextID)
    && (forall user, id :: Registered(s, user, id) <==> id in s.chans && s.chans[id].user == user && !s.chans[id].closed)
    && (forall user :: user in s.subs ==> s.subs[user] != {})
  }

  ghost predicate Sane(s: State) {
    Tidy(s) && forall id :: id in s.chans ==> Accounted(s, id)
  }

  lemma AddressedOne(log: seq<Publication>, since: nat, p: Publication, user: string, conn: string)
    requires since <= |log|
    ensures Addressed((log + [p])[since..], user, conn)
         == Addressed(log[since..], user, conn) + if MeantFor(p, user, conn) then [p.event] else []
  {
    var longer := (log + [p])[since..];
    assert longer[..|longer| - 1] == log[since..] && longer[|longer| - 1] == p;
  }

  lemma KeepOne<T>(xs: seq<T>, flags: seq<bool>, x: T, flag: bool)
    requires |xs| == |flags|
    ensures Keep(xs + [x], flags + [flag]) == Keep(xs, flags) + if flag then [x] else []
    ensures Lost(flags + [flag]) == Lost(flags) + if flag then 0 else 1
  {
    assert (xs + [x])[..|xs|] == xs && (flags + [flag])[..|xs|] == flags;
  }

  lemma WithoutOne(subs: map<string, set<nat>>, user: string, gone: nat, u: string, id: nat)
    ensures var rest := Without(subs, user, gone);
            u in rest && id in rest[u] <==> u in subs && id in subs[u] && !(u == user && id == gone)
  {
    if u == user && u in subs && id in subs[u] && id != gone {
      assert id in subs[u] - {gone};
    }
  }

  lemma TidyStep(s: State, op: Op)
    requires Tidy(s) && Enabled(s, op)
    ensures Tidy(Apply(s, op))
  {
    var s' := Apply(s, op);
    match op
    case Subscribe(user) =>
      forall u, id
        ensures Registered(s', u, id) <==> id in s'.chans && s'.chans[id].user == u && !s'.chans[id].closed
      {
        assert Registered(s, u, id) <==> id in s.chans && s.chans[id].user == u && !s.chans[id].closed;
      }
    case Unsubscribe(gone) =>
      forall u, id
        ensures Registered(s', u, id) <==> id in s'.chans && s'.chans[id].user == u && !s'.chans[id].closed
      {
        assert Registered(s, u, id) <==> id in s.chans && s.chans[id].user == u && !s.chans[id].closed;
        WithoutOne(s.subs, s.chans[gone].user, gone, u, id);
      }
    case Publish(_, _, _) => SameRegistry(s, s');
    case Receive(_) => SameRegistry(s, s');
  }

  lemma SameRegistry(s: State, s': State)
    requires Tidy(s) && s'.subs == s.subs && s'.nextID == s.nextID
    requires s'.chans.Keys == s.chans.Keys && s'.notes.Keys == s.notes.Keys
    requires forall id :: id in s.chans ==> s'.chans[id].user == s.chans[id].user && s'.chans[id].closed == s.chans[id].closed
    ensures Tidy(s')
  {
    forall u, id
      ensures Registered(s', u, id) <==> id in s'.chans && s'.chans[id].user == u && !s'.chans[id].closed
    {
      assert Registered(s, u, id) <==> id in s.chans && s.chans[id].user == u && !s.chans[id].closed;
    }
  }

  /** Under a tidy registry, the targets are exactly the open streams the publication is meant for. */
  lemma TargetsAreMeant(s: State, p: Publication, id: nat)
    requires Tidy(s) && id in s.chans
    ensures id in Targets(s, p.user, p.except) <==> !s.chans[id].closed && MeantFor(p, s.chans[id].user, ConnID(id))
  {
    assert Registered(s, p.user, id) <==> s.chans[id].user == p.user && !s.chans[id].closed;
  }

  /** One more event meant for a stream, kept or dropped, leaves its account balanced. */
  lemma OfferAccounts(expected: seq<Event>, fate: seq<bool>, received: seq<Event>, c: Chan, event: Event)
    requires |fate| == |expected| && Keep(expected, fate) == received + c.buffer && |c.buffer| <= BUFFER
    requires Lost(fate) > 0 ==> |received + c.buffer| >= BUFFER
    ensures var fate', c' := fate + [|c.buffer| < BUFFER], Offer(c, event);
            && |fate'| == |expected + [event]|
            && Keep(expected + [event], fate') == received + c'.buffer
            && |c'.buffer| <= BUFFER
            && (Lost(fate') > 0 ==> |received + c'.buffer| >= BUFFER)
  {
    KeepOne(expected, fate, event, |c.buffer| < BUFFER);
    assert received + (c.buffer + [event]) == received + c.buffer + [event];
  }

  /**
    Why a publish must be one step: a target of a snapshot whose stream is unsubscribed before the
    send is closed by then, and is no target of a fresh snapshot.
    */
  lemma SnapshotGoesStale(s: State, user: string, except: string, id: nat)
    requires Sane(s) && id in Targets(s, user, except)
    ensures Enabled(s, Unsubscribe(id))
    ensures var s' := Apply(s, Unsubscribe(id)); s'.chans[id].closed && id !in Targets(s', user, except)
  {
    assert Registered(s, user, id);
    WithoutOne(s.subs, user, id, user, id);
  }

  /** Who is offered a published event: the open streams of its user that have room, except the one named. */
  lemma OfferedTo(s: State, p: Publication)
    requires Tidy(s)
    ensures var s' := Apply(s, Publish(p.user, p.event, p.except));
            && s'.chans.Keys == s.chans.Keys
            && forall id :: id in s.chans ==>
                 var c := s.chans[id];
                 s'.chans[id] == if !c.closed && c.user == p.user && (p.except == "" || p.except != ConnID(id)) && |c.buffer| < 16
                                 then c.(buffer := c.buffer + [p.event]) else c
  {
    forall id | id in s.chans { TargetsAreMeant(s, p, id); }
  }

  lemma PublishExpected(s: State, p: Publication, id: nat)
    requires Tidy(s) && id in s.chans && Window(s, id)
    ensures var s' := Apply(s, Publish(p.user, p.event, p.except));
            && Window(s', id)
            && Expected(s', id) == Expected(s, id) + if id in Targets(s, p.user, p.except) then [p.event] else []
  {
    var s' := Apply(s, Publish(p.user, p.event, p.except));
    var since, conn := s.notes[id].since, ConnID(id);
    TargetsAreMeant(s, p, id);
    if s.chans[id].closed {
      assert s'.log[since..End(s, id)] == s.log[since..End(s, id)];
    } else {
      AddressedOne(s.log, since, p, s.chans[id].user, conn);
      assert s.log[since..|s.log|] == s.log[since..] && s'.log[since..|s'.log|] == s'.log[since..];
    }
  }

  lemma PublishAccounts(s: State, p: Publication, id: nat)
    requires Tidy(s) && id in s.chans && Accounted(s, id)
    ensures Accounted(Apply(s, Publish(p.user, p.event, p.except)), id)
  {
    PublishExpected(s, p, id);
    if id in Targets(s, p.user, p.except) {
      OfferAccounts(Expected(s, id), s.notes[id].fate, s.notes[id].received, s.chans[id], p.event);
    } else {
      assert Expected(s, id) + [] == Expected(s, id);
    }
  }

  lemma AccountedStep(s: State, op: Op, id: nat)
    requires Tidy(s) && Enabled(s, op) && (id in s.chans ==> Accounted(s, id)) && id in Apply(s, op).chans
    ensures id in Apply(s, op).notes && Accounted(Apply(s, op), id)
  {
    match op
    case Subscribe(_) =>
      var s' := Apply(s, op);
      if id == s'.nextID {
        assert s'.log[|s.log|..|s'.log|] == [];
      } else {
        assert s'.chans[id] == s.chans[id] && s'.notes[id] == s.notes[id];
      }
    case Unsubscribe(_) =>
    case Publish(user, event, except) => PublishAccounts(s, Publication(user, event, except), id);
    case Receive(read) =>
      if id == read {
        var c, n := s.chans[id], s.notes[id];
        assert (n.received + [c.buffer[0]]) + c.buffer[1..] == n.received + c.buffer;
      }
  }

  lemma SaneStep(s: State, op: Op)
    requires Sane(s) && Enabled(s, op)
    ensures Sane(Apply(s, op))
  {
    TidyStep(s, op);
    forall id | id in Apply(s, op).chans ensures Accounted(Apply(s, op), id) { AccountedStep(s, op, id); }
  }

  lemma {:induction false} SaneRun(s: State, ops: seq<Op>)
    requires Sane(s) && Runs(s, ops)
    ensures Sane(Run(s, ops))
    decreases |ops|
  {
    if ops != [] {
      SaneStep(s, ops[0]);
      SaneRun(Apply(s, ops[0]), ops[1..]);
    }
  }

  lemma {:induction false} AddressedComesFrom(log: seq<Publication>, user: string, conn: string, k: nat) returns (i: nat)
    requires k < |Addressed(log, user, conn)|
    ensures i < |log| && MeantFor(log[i], user, conn) && log[i].event == Addressed(log, user, conn)[k]
  {
    var n := |log| - 1;
    if k < |Addressed(log[..n], user, conn)| {
      i := AddressedComesFrom(log[..n], user, conn, k);
    } else {
      i := n;
    }
  }

  /**
    Every stream of every run, open or closed: what its reader received, followed by what is
    buffered, is an in-order subsequence of the events published to its user while it was
    subscribed and not excluding it; published = received + buffered + dropped; the two are equal
    if nothing was dropped; the buffer holds at most 16; and nothing is dropped from a stream for
    which fewer than 16 events were ever kept.
    */
  lemma StreamsInOrder(ops: seq<Op>, id: nat) returns (at: seq<nat>)
    requires Runs(EMPTY, ops) && id in Run(EMPTY, ops).chans
    ensures var s := Run(EMPTY, ops);
            && id in s.notes && Window(s, id)
            && var seen := s.notes[id].received + s.chans[id].buffer;
            var dropped := Lost(s.notes[id].fate);
            && Embeds(seen, Expected(s, id), at)
            && |Expected(s, id)| == |s.notes[id].received| + |s.chans[id].buffer| + dropped
            && (dropped == 0 ==> seen == Expected(s, id))
            && (dropped > 0 ==> |seen| >= 16)
            && |s.chans[id].buffer| <= 16
  {
    SaneRun(EMPTY, ops);
    var s := Run(EMPTY, ops);
    at := KeepEmbeds(Expected(s, id), s.notes[id].fate);
    KeepCounts(Expected(s, id), s.notes[id].fate);
  }

  lemma NoEcho(p: Publication, user: string, id: nat)
    requires MeantFor(p, user, ConnID(id))
    ensures p.user == user && p.except != ConnID(id)
  {
    assert |ConnID(id)| > 0;
  }

  lemma SeenWasPublished(s: State, id: nat, k: nat) returns (i: nat)
    requires id in s.chans && id in s.notes && Accounted(s, id) && k < |s.notes[id].received + s.chans[id].buffer|
    ensures s.notes[id].since <= i < |s.log|
    ensures MeantFor(s.log[i], s.chans[id].user, ConnID(id))
    ensures s.log[i].event == (s.notes[id].received + s.chans[id].buffer)[k]
  {
    var since, expected := s.notes[id].since, Expected(s, id);
    var window := s.log[since..End(s, id)];
    var at := KeepEmbeds(expected, s.notes[id].fate);
    i := AddressedComesFrom(window, s.chans[id].user, ConnID(id), at[k]);
    assert window[i] == s.log[since + i];
    i := since + i;
  }

  /** No stream ever holds or receives an event of another user, or one published as its own echo. */
  lemma OnlyOwnEvents(ops: seq<Op>, id: nat, k: nat) returns (i: nat)
    requires Runs(EMPTY, ops) && id in Run(EMPTY, ops).chans && id in Run(EMPTY, ops).notes
    requires var s := Run(EMPTY, ops); k < |s.notes[id].received + s.chans[id].buffer|
    ensures var s := Run(EMPTY, ops);
            && s.notes[id].since <= i < |s.log|
            && s.log[i].user == s.chans[id].user
            && s.log[i].except != ConnID(id)
            && s.log[i].event == (s.notes[id].received + s.chans[id].buffer)[k]
  {
    SaneRun(EMPTY, ops);
    var s := Run(EMPTY, ops);
    i := SeenWasPublished(s, id, k);
    NoEcho(s.log[i], s.chans[id].user, id);
  }

  /** The registry holds an entry for a user exactly while that user has an open stream. */
  lemma RegistryIsExact(ops: seq<Op>, user: string)
    requires Runs(EMPTY, ops)
    ensures var s := Run(EMPTY, ops);
            user in s.subs <==> exists id :: id in s.chans && s.chans[id].user == user && !s.chans[id].closed
  {
    SaneRun(EMPTY, ops);
    var s := Run(EMPTY, ops);
    if user in s.subs {
      var id :| id in s.subs[user];
      assert Registered(s, user, id);
    }
    forall id | id in s.chans && s.chans[id].user == user && !s.chans[id].closed ensures user in s.subs {
      assert Registered(s, user, id);
    }
  }

  /** The hub itself. */
  class EventHub {
    var subs: map<string, set<nat>>
    var chans: map<nat, Chan>
    var nextID: nat
    ghost var log: seq<Publication>
    ghost var notes: map<nat, Note>

    ghost function Model(): State
      reads this
    {
      State(subs, chans, nextID, log, notes)
    }

    constructor ()
      ensures Model() == EMPTY
    {
      subs, chans, nextID, log, notes := map[], map[], 0, [], map[];
    }

    method Subscribe(user: string) returns (id: nat)
      modifies this
      ensures Model() == Apply(old(Model()), Op.Subscribe(user))
      ensures id == nextID == old(nextID) + 1 && chans == old(chans)[id := Chan(user, [], false)]
    {
      nextID := nextID + 1;
      id := nextID;
      chans := chans[id := Chan(user, [], false)];
      if user !in subs {
        subs := subs[user := {}];
      }
      subs := subs[user := subs[user] + {id}];
      notes := notes[id := Note(|log|, |log|, [], [])];
    }

    /** The unsub function of a stream, called at most once. */
    method Unsubscribe(id: nat)
      requires Enabled(Model(), Op.Unsubscribe(id))
      modifies this
      ensures Model() == Apply(old(Model()), Op.Unsubscribe(id))
      ensures chans == old(chans)[id := old(chans[id]).(closed := true)]
    {
      var user := chans[id].user;
      if user in subs {
        subs := subs[user := subs[user] - {id}];
        if subs[user] == {} {
          subs := subs - {user};
        }
      }
      chans := chans[id := chans[id].(closed := true)];
      notes := notes[id := notes[id].(until := |log|)];
      assert Model().subs == Apply(old(Model()), Op.Unsubscribe(id)).subs;
    }

    /** The snapshot of targets, in any order. */
    method Snapshot(user: string, except: string) returns (targets: seq<nat>)
      ensures forall id :: id in targets <==> id in Targets(Model(), user, except)
      ensures forall i, j :: 0 <= i < j < |targets| ==> targets[i] != targets[j]
    {
      var rest := if user in subs then subs[user] else {};
      targets := [];
      while rest != {}
        invariant rest <= if user in subs then subs[user] else {}
        invariant forall id :: id in targets <==> id in Targets(Model(), user, except) && id !in rest
        invariant forall i, j :: 0 <= i < j < |targets| ==> targets[i] != targets[j]
        decreases |rest|
      {
        var id :| id in rest;
        rest := rest - {id};
        if except != "" && ConnID(id) == except {
          continue;
        }
        targets := targets + [id];
      }
    }

    /** The sends to a snapshot of targets, none of which is closed. */
    method OfferAll(targets: seq<nat>, event: Event)
      requires forall k :: 0 <= k < |targets| ==> targets[k] in chans && !chans[targets[k]].closed
      requires forall i, j :: 0 <= i < j < |targets| ==> targets[i] != targets[j]
      modifies `chans
      ensures chans == map id | id in old(chans) :: if id in targets then Offer(old(chans)[id], event) else old(chans)[id]
    {
      ghost var before := chans;
      for i := 0 to |targets|
        invariant chans.Keys == before.Keys
        invariant forall id :: id in chans ==> chans[id] == if id in targets[..i] then Offer(before[id], event) else before[id]
      {
        var id := targets[i];
        assert !before[id].closed;
        if |chans[id].buffer| < BUFFER {
          chans := chans[id := chans[id].(buffer := chans[id].buffer + [event])];
        }
      }
      assert targets[..|targets|] == targets;
    }

    /** Offers the event to each target of a snapshot. */
    method PublishExcept(user: string, event: Event, except: string)
      requires Tidy(Model())
      modifies this
      ensures Model() == Apply(old(Model()), Op.Publish(user, event, except))
      ensures chans.Keys == old(chans.Keys) && log == old(log) + [Publication(user, event, except)]
      ensures forall id :: id in chans ==>
                var c := old(chans)[id];
                chans[id] == if !c.closed && c.user == user && (except == "" || except != ConnID(id)) && |c.buffer| < 16
                             then c.(buffer := c.buffer + [event]) else c
    {
      ghost var before := Model();
      OfferedTo(before, Publication(user, event, except));
      var targets := Snapshot(user, except);
      forall k | 0 <= k < |targets| ensures targets[k] in chans && !chans[targets[k]].closed {
        assert targets[k] in Targets(before, user, except);
        assert Registered(before, user, targets[k]);
      }
      OfferAll(targets, event);
      notes := Apply(before, Op.Publish(user, event, except)).notes;
      log := log + [Publication(user, event, except)];
    }

    method Publish(user: string, event: Event)
      requires Tidy(Model())
      modifies this
      ensures Model() == Apply(old(Model()), Op.Publish(user, event, ""))
      ensures log == old(log) + [Publication(user, event, "")]
    {
      PublishExcept(user, event, "");
    }

    method Receive(id: nat) returns (event: Event)
      requires Enabled(Model(), Op.Receive(id))
      modifies this
      ensures Model() == Apply(old(Model()), Op.Receive(id))
      ensures [event] <= old(chans[id].buffer)
    {
      event := chans[id].buffer[0];
      chans := chans[id := chans[id].(buffer := chans[id].buffer[1..])];
      notes := notes[id := notes[id].(received := notes[id].received + [event])];
    }
  }
}
