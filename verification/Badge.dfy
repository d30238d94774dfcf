/**
  Notifications and the unread badge: handlers that change the table and publish the new count,
  and streams that start from a count read after they subscribe.  A handler is one step; opening a
  stream and reading its initial count are two.
  */
module Badge {
  import opened Wrappers
  import H = Hub

  datatype Row = Row(user: string, kind: string, read: bool)

  /** muted is None for a list that is absent or is not valid JSON. */
  datatype Prefs = Prefs(inApp: bool, webPush: bool, mobile: bool, muted: Option<seq<string>>)

  /**
    initial holds the count each stream wrote first.  missed only records, for each stream, how
    many unread rows were inserted without an announcement since its newest value was taken.
    */
  datatype State = State(rows: map<string, Row>, prefs: map<string, Prefs>, hub: H.State,
                         initial: map<nat, nat>, missed: map<nat, nat>)

  datatype Op =
    | ServiceNotify(user: string, kind: string, title: string, uuid: string)
    | SelfNotify(user: string, kind: string, title: string, uuid: string)
    | AdminNotify(user: string, kind: string, title: string, uuid: string)
    | MarkRead(user: string, id: string)
    | MarkAllRead(user: string)
    | Delete(user: string, id: string)
    | SetPrefs(user: string, prefs: Prefs)
    | Open(user: string)
    | ReadInitial(stream: nat)
    | Receive(stream: nat)
    | Close(stream: nat)

  const EMPTY := State(map[], map[], H.EMPTY, map[], map[])

  function LoadPrefs(prefs: map<string, Prefs>, user: string): Prefs {
    if user in prefs then prefs[user] else Prefs(true, true, true, None)
  }

  predicate Muted(p: Prefs, kind: string) { p.muted.Some? && kind in p.muted.value }

  function Unread(rows: map<string, Row>, user: string): set<string> {
    set id | id in rows && rows[id].user == user && !rows[id].read
  }

  function Count(rows: map<string, Row>, user: string): nat { |Unread(rows, user)| }

  function Marked(rows: map<string, Row>, ids: set<string>): map<string, Row> {
    map id | id in rows :: if id in ids then rows[id].(read := true) else rows[id]
  }

  predicate OpenFor(s: State, user: string, stream: nat) {
    stream in s.hub.chans && !s.hub.chans[stream].closed && s.hub.chans[stream].user == user
  }

  function CountEvent(count: nat): H.Event { H.Event("unread_count", None, Some(count)) }

  function NoticeEvent(uuid: string): H.Event { H.Event("notification", Some(uuid), None) }

  /** publishUnread: the table's count goes to every open stream of the user. */
  function PublishUnread(s: State, user: string): State {
    s.(hub := H.Apply(s.hub, H.Publish(user, CountEvent(Count(s.rows, user)), "")),
       missed := map id | id in s.missed :: if OpenFor(s, user, id) then 0 else s.missed[id])
  }

  function Insert(s: State, user: string, kind: string, uuid: string): State {
    s.(rows := s.rows[uuid := Row(user, kind, false)])
  }

  function Announced(s: State, user: string, uuid: string): State {
    PublishUnread(s.(hub := H.Apply(s.hub, H.Publish(user, NoticeEvent(uuid), ""))), user)
  }

  function Notify(s: State, user: string, kind: string, uuid: string, inApp: bool): State {
    var s1 := Insert(s, user, kind, uuid);
    if inApp then Announced(s1, user, uuid)
    else s1.(missed := map id | id in s.missed :: if OpenFor(s, user, id) then s.missed[id] + 1 else s.missed[id])
  }

  function SelfKind(kind: string): string { if kind == "" then "self.message" else kind }

  function TestKind(kind: string): string { if kind == "" then "test.message" else kind }

  /** Whether a notify request gets as far as inserting a row. */
  predicate Inserts(s: State, op: Op) {
    match op
    case ServiceNotify(user, kind, title, _) =>
      var p := LoadPrefs(s.prefs, user);
      user != "" && kind != "" && title != "" && (p.inApp || p.webPush || p.mobile) && !Muted(p, kind)
    case SelfNotify(user, kind, title, _) =>
      user != "" && title != "" && !Muted(LoadPrefs(s.prefs, user), SelfKind(kind))
    case AdminNotify(user, _, title, _) => user != "" && title != ""
    case _ => false
  }

  predicate Silent(s: State, op: Op) {
    Inserts(s, op) && !op.AdminNotify? && !LoadPrefs(s.prefs, op.user).inApp
  }

  predicate Enabled(s: State, op: Op) {
    match op
    case ServiceNotify(_, _, _, uuid) => uuid !in s.rows
    case SelfNotify(_, _, _, uuid) => uuid !in s.rows
    case AdminNotify(_, _, _, uuid) => uuid !in s.rows
    case Open(user) => user != ""
    case ReadInitial(stream) => stream in s.hub.chans && !s.hub.chans[stream].closed && stream !in s.initial
    case Receive(stream) => stream in s.initial && H.Enabled(s.hub, H.Receive(stream))
    case Close(stream) => stream in s.initial && H.Enabled(s.hub, H.Unsubscribe(stream))
    case _ => true
  }

  function Apply(s: State, op: Op): State
    requires Enabled(s, op)
  {
    match op
    case ServiceNotify(user, kind, _, uuid) =>
      if !Inserts(s, op) then s else Notify(s, user, kind, uuid, LoadPrefs(s.prefs, user).inApp)
    case SelfNotify(user, kind, _, uuid) =>
      if !Inserts(s, op) then s else Notify(s, user, SelfKind(kind), uuid, LoadPrefs(s.prefs, user).inApp)
    case AdminNotify(user, kind, _, uuid) =>
      if !Inserts(s, op) then s else Notify(s, user, TestKind(kind), uuid, true)
    case MarkRead(user, id) =>
      if user == "" || id !in Unread(s.rows, user) then s
      else PublishUnread(s.(rows := Marked(s.rows, {id})), user)
    case MarkAllRead(user) =>
      if user == "" then s else PublishUnread(s.(rows := Marked(s.rows, Unread(s.rows, user))), user)
    case Delete(user, id) =>
      if user == "" || id !in s.rows || s.rows[id].user != user then s
      else PublishUnread(s.(rows := s.rows - {id}), user)
    case SetPrefs(user, prefs) => if user == "" then s else s.(prefs := s.prefs[user := prefs])
    case Open(user) =>
      s.(hub := H.Apply(s.hub, H.Subscribe(user)), missed := s.missed[s.hub.nextID + 1 := 0])
    case ReadInitial(stream) =>
      s.(initial := s.initial[stream := Count(s.rows, s.hub.chans[stream].user)],
         missed := if Heard(s, stream) then s.missed else s.missed[stream := 0])
    case Receive(stream) => s.(hub := H.Apply(s.hub, H.Receive(stream)))
    case Close(stream) => s.(hub := H.Apply(s.hub, H.Unsubscribe(stream)))
  }

  /** Preferences that were set are the ones found, and no others change. */
  lemma SetIsFound(s: State, user: string, prefs: Prefs, other: string)
    requires user != ""
    ensures LoadPrefs(Apply(s, SetPrefs(user, prefs)).prefs, other)
         == if other == user then prefs else LoadPrefs(s.prefs, other)
    ensures Apply(s, SetPrefs(user, prefs)).rows == s.rows && Apply(s, SetPrefs(user, prefs)).hub == s.hub
  {
  }

  predicate Runs(s: State, ops: seq<Op>)
    decreases |ops|
  {
    ops == [] || (Enabled(s, ops[0]) && Runs(Apply(s, ops[0]), ops[1..]))
  }

  function Run(s: State, ops: seq<Op>): State
    requires Runs(s, ops)
    decreases |ops|
  {
    if ops == [] then s else Run(Apply(s, ops[0]), ops[1..])
  }

  // What a client shows

  function LastUnread(events: seq<H.Event>): Option<nat> {
    if events == [] then None
    else
      var n := |events| - 1;
      if events[n].unread.Some? then events[n].unread else LastUnread(events[..n])
  }

  /** The hub has published a count to the stream, so that count is newer than its initial one. */
  predicate Heard(s: State, stream: nat) {
    && stream in s.hub.chans && stream in s.hub.notes && H.Window(s.hub, stream)
    && LastUnread(H.Expected(s.hub, stream)).Some?
  }

  /** The last unread value among the initial one, those received and those still buffered. */
  function Shown(s: State, stream: nat): nat
    requires stream in s.initial && stream in s.hub.chans && stream in s.hub.notes
  {
    match LastUnread(s.hub.notes[stream].received + s.hub.chans[stream].buffer)
    case Some(v) => v
    case None => s.initial[stream]
  }

  /** The newest count published to a stream was not dropped; true in particular if nothing was. */
  predicate NewestKept(events: seq<H.Event>, fate: seq<bool>)
    requires |events| == |fate|
  {
    if events == [] then true
    else
      var n := |events| - 1;
      if events[n].unread.Some? then fate[n] else NewestKept(events[..n], fate[..n])
  }

  lemma LastUnreadOne(events: seq<H.Event>, e: H.Event)
    ensures LastUnread(events + [e]) == if e.unread.Some? then e.unread else LastUnread(events)
  {
    assert (events + [e])[..|events|] == events;
  }

  lemma {:induction false} NewestKeptShows(events: seq<H.Event>, fate: seq<bool>)
    requires |events| == |fate| && NewestKept(events, fate)
    ensures LastUnread(H.Keep(events, fate)) == LastUnread(events)
  {
    if events != [] {
      var n := |events| - 1;
      var kept := H.Keep(events[..n], fate[..n]);
      LastUnreadOne(kept, events[n]);
      if events[n].unread.None? {
        NewestKeptShows(events[..n], fate[..n]);
        assert kept + [] == kept;
      }
    }
  }

  lemma {:induction false} NothingLostKeepsNewest(events: seq<H.Event>, fate: seq<bool>)
    requires |events| == |fate| && H.Lost(fate) == 0
    ensures NewestKept(events, fate)
  {
    if events != [] {
      NothingLostKeepsNewest(events[..|events| - 1], fate[..|fate| - 1]);
    }
  }

  // The invariant

  /** The newest value an open stream was given differs from the table by the rows it missed. */
  predicate InStep(s: State, stream: nat)
    requires stream in s.hub.chans && stream in s.hub.notes && H.Window(s.hub, stream)
  {
    && stream in s.missed
    && var count := Count(s.rows, s.hub.chans[stream].user);
    match LastUnread(H.Expected(s.hub, stream))
    case Some(v) => count == v + s.missed[stream]
    case None => stream in s.initial ==> count == s.initial[stream] + s.missed[stream]
  }

  ghost predicate Good(s: State) {
    && H.Sane(s.hub)
    && (forall id :: id in s.initial ==> id in s.hub.chans)
    && (forall id :: id in s.hub.chans && !s.hub.chans[id].closed ==> InStep(s, id))
  }

  /** Publishing to one user leaves what every other stream expects as it was. */
  lemma PublishApart(hub: H.State, user: string, event: H.Event, id: nat)
    requires H.Tidy(hub) && id in hub.chans && !hub.chans[id].closed && H.Window(hub, id)
    ensures var hub' := H.Apply(hub, H.Publish(user, event, ""));
            && id in hub'.chans && id in hub'.notes && H.Window(hub', id)
            && hub'.chans[id].user == hub.chans[id].user && !hub'.chans[id].closed
            && LastUnread(H.Expected(hub', id)) == if hub.chans[id].user == user && event.unread.Some? then event.unread
                                                   else LastUnread(H.Expected(hub, id))
  {
    var p := H.Publication(user, event, "");
    var expected := H.Expected(hub, id);
    H.PublishExpected(hub, p, id);
    H.TargetsAreMeant(hub, p, id);
    LastUnreadOne(expected, event);
    assert expected + [] == expected;
  }

  /** A published count brings every open stream of the user in step, whatever changed before it. */
  lemma PublishUnreadInStep(s: State, user: string, id: nat)
    requires H.Tidy(s.hub) && id in s.hub.chans && !s.hub.chans[id].closed && H.Window(s.hub, id) && id in s.missed
    requires s.hub.chans[id].user != user ==> InStep(s, id)
    ensures var s' := PublishUnread(s, user);
            id in s'.hub.chans && id in s'.hub.notes && H.Window(s'.hub, id) && InStep(s', id)
  {
    PublishApart(s.hub, user, CountEvent(Count(s.rows, user)), id);
  }

  lemma PublishKeepsStreams(hub: H.State, user: string, event: H.Event, id: nat)
    ensures var hub' := H.Apply(hub, H.Publish(user, event, ""));
            && (id in hub'.chans <==> id in hub.chans)
            && (id in hub.chans ==> hub'.chans[id].closed == hub.chans[id].closed && hub'.chans[id].user == hub.chans[id].user)
  {
  }

  /** Rows of other users do not change, so neither does their count. */
  lemma CountApart(before: map<string, Row>, after: map<string, Row>, user: string)
    requires forall id :: (id in before && before[id].user == user) || (id in after && after[id].user == user) ==>
                            id in before && id in after && before[id] == after[id]
    ensures Count(before, user) == Count(after, user)
  {
    assert Unread(before, user) == Unread(after, user);
  }

  /** A handler that changes rows of one user and then publishes that user's count. */
  lemma ChangeAndPublish(s: State, rows: map<string, Row>, user: string)
    requires Good(s)
    requires forall other :: other != user ==> Count(s.rows, other) == Count(rows, other)
    ensures Good(PublishUnread(s.(rows := rows), user))
  {
    var s1 := s.(rows := rows);
    var s' := PublishUnread(s1, user);
    var event := CountEvent(Count(rows, user));
    H.SaneStep(s.hub, H.Publish(user, event, ""));
    forall id | id in s'.hub.chans && !s'.hub.chans[id].closed ensures InStep(s', id) {
      PublishKeepsStreams(s.hub, user, event, id);
      assert InStep(s, id);
      PublishUnreadInStep(s1, user, id);
    }
  }

  lemma InsertCounts(rows: map<string, Row>, user: string, kind: string, uuid: string)
    requires uuid !in rows
    ensures var rows' := rows[uuid := Row(user, kind, false)];
            && Count(rows', user) == Count(rows, user) + 1
            && forall other :: other != user ==> Count(rows, other) == Count(rows', other)
  {
    var rows' := rows[uuid := Row(user, kind, false)];
    assert Unread(rows', user) == Unread(rows, user) + {uuid};
    forall other | other != user ensures Count(rows, other) == Count(rows', other) { CountApart(rows, rows', other); }
  }

  /** An event without a count, such as a notification, moves no badge. */
  lemma OtherEventGood(s: State, user: string, event: H.Event)
    requires Good(s) && event.unread.None?
    ensures Good(s.(hub := H.Apply(s.hub, H.Publish(user, event, ""))))
  {
    var s' := s.(hub := H.Apply(s.hub, H.Publish(user, event, "")));
    H.SaneStep(s.hub, H.Publish(user, event, ""));
    forall id | id in s'.hub.chans && !s'.hub.chans[id].closed ensures InStep(s', id) {
      PublishKeepsStreams(s.hub, user, event, id);
      assert InStep(s, id);
      PublishApart(s.hub, user, event, id);
    }
  }

  lemma NotifyGood(s: State, user: string, kind: string, uuid: string, inApp: bool)
    requires Good(s) && uuid !in s.rows
    ensures Good(Notify(s, user, kind, uuid, inApp))
  {
    InsertCounts(s.rows, user, kind, uuid);
    var rows := s.rows[uuid := Row(user, kind, false)];
    if inApp {
      OtherEventGood(s, user, NoticeEvent(uuid));
      ChangeAndPublish(s.(hub := H.Apply(s.hub, H.Publish(user, NoticeEvent(uuid), ""))), rows, user);
    } else {
      var s' := Notify(s, user, kind, uuid, inApp);
      forall id | id in s'.hub.chans && !s'.hub.chans[id].closed ensures InStep(s', id) {
        assert InStep(s, id);
        if s.hub.chans[id].user != user {
          assert Count(s.rows, s.hub.chans[id].user) == Count(rows, s.hub.chans[id].user);
        }
      }
    }
  }

  lemma MarkedApart(rows: map<string, Row>, ids: set<string>, user: string)
    requires ids <= Unread(rows, user)
    ensures forall other :: other != user ==> Count(rows, other) == Count(Marked(rows, ids), other)
  {
    forall other | other != user ensures Count(rows, other) == Count(Marked(rows, ids), other) {
      CountApart(rows, Marked(rows, ids), other);
    }
  }

  lemma OpenGood(s: State, user: string)
    requires Good(s) && Enabled(s, Open(user))
    ensures Good(Apply(s, Open(user)))
  {
    var s' := Apply(s, Open(user));
    H.SaneStep(s.hub, H.Subscribe(user));
    forall id | id in s'.hub.chans && !s'.hub.chans[id].closed ensures InStep(s', id) {
      if id == s'.hub.nextID {
        assert s'.hub.log[|s.hub.log|..|s'.hub.log|] == [];
      } else {
        assert InStep(s, id) && H.Expected(s'.hub, id) == H.Expected(s.hub, id);
      }
    }
  }

  lemma ReadInitialInStep(s: State, stream: nat, id: nat)
    requires Enabled(s, ReadInitial(stream)) && stream in s.missed
    requires id in s.hub.chans && id in s.hub.notes && H.Window(s.hub, id) && InStep(s, id)
    ensures InStep(Apply(s, ReadInitial(stream)), id)
  {
  }

  lemma ReadInitialGood(s: State, stream: nat)
    requires Good(s) && Enabled(s, ReadInitial(stream))
    ensures Good(Apply(s, ReadInitial(stream)))
  {
    assert InStep(s, stream);
    forall id | id in s.hub.chans && !s.hub.chans[id].closed ensures InStep(Apply(s, ReadInitial(stream)), id) {
      ReadInitialInStep(s, stream, id);
    }
  }

  /** Reading from a stream or closing it publishes nothing. */
  lemma QuietHubStep(hub: H.State, op: H.Op)
    requires hub.chans.Keys == hub.notes.Keys && H.Enabled(hub, op) && (op.Receive? || op.Unsubscribe?)
    ensures H.Apply(hub, op).log == hub.log && H.Apply(hub, op).chans.Keys == hub.chans.Keys
    ensures Quiet(hub, H.Apply(hub, op))
  {
  }

  predicate Quiet(hub: H.State, hub': H.State) {
    forall id :: id in hub.chans && id in hub'.chans && id in hub.notes && id in hub'.notes && !hub'.chans[id].closed ==>
      && !hub.chans[id].closed && hub'.chans[id].user == hub.chans[id].user
      && hub'.notes[id].since == hub.notes[id].since
  }

  lemma QuietGood(s: State, op: H.Op)
    requires Good(s) && H.Enabled(s.hub, op) && (op.Receive? || op.Unsubscribe?)
    ensures Good(s.(hub := H.Apply(s.hub, op)))
  {
    H.SaneStep(s.hub, op);
    QuietHubStep(s.hub, op);
    SameStreams(s, s.(hub := H.Apply(s.hub, op)));
  }

  lemma MarkGood(s: State, user: string, ids: set<string>)
    requires Good(s) && ids <= Unread(s.rows, user)
    ensures Good(PublishUnread(s.(rows := Marked(s.rows, ids)), user))
  {
    MarkedApart(s.rows, ids, user);
    ChangeAndPublish(s, Marked(s.rows, ids), user);
  }

  lemma DeleteGood(s: State, user: string, id: string)
    requires Good(s) && id in s.rows && s.rows[id].user == user
    ensures Good(PublishUnread(s.(rows := s.rows - {id}), user))
  {
    forall other | other != user ensures Count(s.rows, other) == Count(s.rows - {id}, other) {
      CountApart(s.rows, s.rows - {id}, other);
    }
    ChangeAndPublish(s, s.rows - {id}, user);
  }

  lemma NotifyStepGood(s: State, op: Op)
    requires Good(s) && Enabled(s, op) && Inserts(s, op)
    ensures Good(Apply(s, op))
  {
    match op
    case ServiceNotify(user, kind, _, uuid) => NotifyGood(s, user, kind, uuid, LoadPrefs(s.prefs, user).inApp);
    case SelfNotify(user, kind, _, uuid) => NotifyGood(s, user, SelfKind(kind), uuid, LoadPrefs(s.prefs, user).inApp);
    case AdminNotify(user, kind, _, uuid) => NotifyGood(s, user, TestKind(kind), uuid, true);
    case _ =>
  }

  lemma SkippedNotify(s: State, op: Op)
    requires Enabled(s, op) && (op.ServiceNotify? || op.SelfNotify? || op.AdminNotify?) && !Inserts(s, op)
    ensures Apply(s, op) == s
  {
  }

  lemma AskedGood(s: State, op: Op)
    requires Good(s) && Enabled(s, op) && (op.ServiceNotify? || op.SelfNotify? || op.AdminNotify?)
    ensures Good(Apply(s, op))
  {
    if Inserts(s, op) { NotifyStepGood(s, op); } else { SkippedNotify(s, op); }
  }

  lemma TableStepGood(s: State, op: Op)
    requires Good(s) && Enabled(s, op) && (op.MarkRead? || op.MarkAllRead? || op.Delete? || op.SetPrefs?)
    ensures Good(Apply(s, op))
  {
    match op
    case MarkRead(user, id) => if id in Unread(s.rows, user) { MarkGood(s, user, {id}); }
    case MarkAllRead(user) => MarkGood(s, user, Unread(s.rows, user));
    case Delete(user, id) => if id in s.rows && s.rows[id].user == user { DeleteGood(s, user, id); }
    case SetPrefs(_, _) => SameStreams(s, Apply(s, op));
    case _ =>
  }

  lemma StepGood(s: State, op: Op)
    requires Good(s) && Enabled(s, op)
    ensures Good(Apply(s, op))
  {
    match op
    case Open(user) => OpenGood(s, user);
    case ReadInitial(stream) => ReadInitialGood(s, stream);
    case Receive(stream) => QuietGood(s, H.Receive(stream));
    case Close(stream) => QuietGood(s, H.Unsubscribe(stream));
    case ServiceNotify(_, _, _, _) => AskedGood(s, op);
    case SelfNotify(_, _, _, _) => AskedGood(s, op);
    case AdminNotify(_, _, _, _) => AskedGood(s, op);
    case MarkRead(_, _) => TableStepGood(s, op);
    case MarkAllRead(_) => TableStepGood(s, op);
    case Delete(_, _) => TableStepGood(s, op);
    case SetPrefs(_, _) => TableStepGood(s, op);
  }

  lemma SameStreams(s: State, s': State)
    requires Good(s) && H.Sane(s'.hub) && s'.rows == s.rows && s'.initial == s.initial && s'.missed == s.missed
    requires s'.hub.log == s.hub.log && s'.hub.chans.Keys == s.hub.chans.Keys
    requires Quiet(s.hub, s'.hub)
    ensures Good(s')
  {
    forall id | id in s'.hub.chans && !s'.hub.chans[id].closed ensures InStep(s', id) {
      assert InStep(s, id);
      assert H.Expected(s'.hub, id) == H.Expected(s.hub, id);
    }
  }

  lemma {:induction false} RunGood(s: State, ops: seq<Op>)
    requires Good(s) && Runs(s, ops)
    ensures Good(Run(s, ops))
    decreases |ops|
  {
    if ops != [] {
      StepGood(s, ops[0]);
      RunGood(Apply(s, ops[0]), ops[1..]);
    }
  }

  /** The open streams whose value the claim is about. */
  predicate Settled(s: State, stream: nat) {
    && stream in s.initial && stream in s.hub.chans && stream in s.hub.notes && stream in s.missed
    && !s.hub.chans[stream].closed && H.Window(s.hub, stream)
    && |s.hub.notes[stream].fate| == |H.Expected(s.hub, stream)|
    && NewestKept(H.Expected(s.hub, stream), s.hub.notes[stream].fate)
  }

  /**
    The badge, exactly, after every run: the value a client shows lags the table by the rows
    inserted silently since that value was taken, so it is right if and only if there are none.
    */
  lemma BadgeConverges(ops: seq<Op>, stream: nat)
    requires Runs(EMPTY, ops) && Settled(Run(EMPTY, ops), stream)
    ensures var s := Run(EMPTY, ops);
            var count := Count(s.rows, s.hub.chans[stream].user);
            && Shown(s, stream) + s.missed[stream] == count
            && (Shown(s, stream) == count <==> s.missed[stream] == 0)
  {
    RunGood(EMPTY, ops);
    var s := Run(EMPTY, ops);
    assert H.Accounted(s.hub, stream);
    NewestKeptShows(H.Expected(s.hub, stream), s.hub.notes[stream].fate);
  }

  /** A stream that lost nothing is settled as soon as it has its initial count. */
  lemma LosslessSettles(ops: seq<Op>, stream: nat)
    requires Runs(EMPTY, ops)
    requires var s := Run(EMPTY, ops);
             && stream in s.initial && stream in s.hub.chans && !s.hub.chans[stream].closed && stream in s.hub.notes
             && H.Lost(s.hub.notes[stream].fate) == 0
    ensures Settled(Run(EMPTY, ops), stream)
  {
    RunGood(EMPTY, ops);
    var s := Run(EMPTY, ops);
    assert H.Accounted(s.hub, stream);
    NothingLostKeepsNewest(H.Expected(s.hub, stream), s.hub.notes[stream].fate);
  }

  predicate NeverSilent(s: State, ops: seq<Op>)
    requires Runs(s, ops)
    decreases |ops|
  {
    ops == [] || (!Silent(s, ops[0]) && NeverSilent(Apply(s, ops[0]), ops[1..]))
  }

  ghost predicate NoneMissed(s: State) { forall id :: id in s.missed ==> s.missed[id] == 0 }

  lemma NoneMissedNotify(s: State, user: string, kind: string, uuid: string)
    requires NoneMissed(s)
    ensures NoneMissed(Notify(s, user, kind, uuid, true))
  {
  }

  lemma NoneMissedStep(s: State, op: Op)
    requires Enabled(s, op) && !Silent(s, op) && NoneMissed(s)
    ensures NoneMissed(Apply(s, op))
  {
    match op
    case ServiceNotify(user, kind, _, uuid) => NoneMissedNotify(s, user, kind, uuid);
    case SelfNotify(user, kind, _, uuid) => NoneMissedNotify(s, user, SelfKind(kind), uuid);
    case AdminNotify(user, kind, _, uuid) => NoneMissedNotify(s, user, TestKind(kind), uuid);
    case _ =>
  }

  lemma {:induction false} NoneMissedRun(s: State, ops: seq<Op>)
    requires Runs(s, ops) && NeverSilent(s, ops) && NoneMissed(s)
    ensures NoneMissed(Run(s, ops))
    decreases |ops|
  {
    if ops != [] {
      NoneMissedStep(s, ops[0]);
      NoneMissedRun(Apply(s, ops[0]), ops[1..]);
    }
  }

  /**
    Convergence: if every inserted notification is announced, which is so while its user has in-app
    delivery enabled, then every stream that has its initial count and lost no event shows the
    number of unread rows of its user.
    */
  lemma AnnouncedBadgeIsExact(ops: seq<Op>, stream: nat)
    requires Runs(EMPTY, ops) && NeverSilent(EMPTY, ops)
    requires var s := Run(EMPTY, ops);
             && stream in s.initial && stream in s.hub.chans && !s.hub.chans[stream].closed && stream in s.hub.notes
             && H.Lost(s.hub.notes[stream].fate) == 0
    ensures var s := Run(EMPTY, ops); Shown(s, stream) == Count(s.rows, s.hub.chans[stream].user)
  {
    LosslessSettles(ops, stream);
    BadgeConverges(ops, stream);
    NoneMissedRun(EMPTY, ops);
  }

  /** The newest value a stream was given, whether or not it reached the client. */
  function Newest(s: State, stream: nat): nat
    requires stream in s.initial && stream in s.hub.chans && stream in s.hub.notes && H.Window(s.hub, stream)
  {
    match LastUnread(H.Expected(s.hub, stream)) case Some(v) => v case None => s.initial[stream]
  }

  lemma NotifyMisses(s: State, user: string, kind: string, uuid: string, inApp: bool, stream: nat)
    requires OpenFor(s, user, stream) && stream in s.missed
    ensures var s' := Notify(s, user, kind, uuid, inApp);
            && OpenFor(s', user, stream) && stream in s'.missed && s'.initial == s.initial
            && s'.missed[stream] == (if inApp then 0 else s.missed[stream] + 1)
  {
  }

  lemma NotifyKeepsStream(s: State, op: Op, stream: nat)
    requires Enabled(s, op) && Inserts(s, op) && OpenFor(s, op.user, stream) && stream in s.missed
    ensures var s' := Apply(s, op);
            && OpenFor(s', op.user, stream) && stream in s'.missed && s'.initial == s.initial
            && s'.missed[stream] == (if Silent(s, op) then s.missed[stream] + 1 else 0)
  {
    match op
    case ServiceNotify(user, kind, _, uuid) => NotifyMisses(s, user, kind, uuid, LoadPrefs(s.prefs, user).inApp, stream);
    case SelfNotify(user, kind, _, uuid) => NotifyMisses(s, user, SelfKind(kind), uuid, LoadPrefs(s.prefs, user).inApp, stream);
    case AdminNotify(user, kind, _, uuid) => NotifyMisses(s, user, TestKind(kind), uuid, true, stream);
    case _ =>
  }

  /** A notification that is inserted keeps a right badge right exactly if in-app delivery announces it. */
  lemma SilentBreaksTheBadge(s: State, op: Op, stream: nat)
    requires Good(s) && Enabled(s, op) && Inserts(s, op)
    requires OpenFor(s, op.user, stream) && stream in s.initial && Newest(s, stream) == Count(s.rows, op.user)
    ensures var s' := Apply(s, op);
            && OpenFor(s', op.user, stream) && stream in s'.initial && stream in s'.hub.notes && H.Window(s'.hub, stream)
            && (Newest(s', stream) == Count(s'.rows, op.user) <==> !Silent(s, op))
  {
    assert InStep(s, stream);
    NotifyKeepsStream(s, op, stream);
    StepGood(s, op);
    GoodInStep(Apply(s, op), op.user, stream);
  }

  lemma GoodInStep(s: State, user: string, stream: nat)
    requires Good(s) && OpenFor(s, user, stream)
    ensures stream in s.hub.notes && H.Window(s.hub, stream) && InStep(s, stream)
  {
    assert H.Accounted(s.hub, stream);
  }

  /** A change of the table and the publication of its count, as two separate steps. */
  function Mark(s: State, id: string): State { s.(rows := Marked(s.rows, {id})) }

  function PublishCount(s: State, user: string, count: nat): State {
    s.(hub := H.Apply(s.hub, H.Publish(user, CountEvent(count), "")))
  }

  lemma MarkedCounts(rows: map<string, Row>, id: string, user: string)
    requires id in Unread(rows, user)
    ensures Count(Marked(rows, {id}), user) + 1 == Count(rows, user)
    ensures forall other :: other != id ==> (other in Unread(rows, user) <==> other in Unread(Marked(rows, {id}), user))
  {
    assert Unread(Marked(rows, {id}), user) == Unread(rows, user) - {id};
  }

  lemma TwoCounts(s: State, user: string, stream: nat, second: nat, first: nat)
    requires H.Sane(s.hub) && OpenFor(s, user, stream)
    ensures var s' := PublishCount(PublishCount(s, user, second), user, first);
            && stream in s'.hub.chans && stream in s'.hub.notes && H.Window(s'.hub, stream)
            && LastUnread(H.Expected(s'.hub, stream)) == Some(first)
  {
    assert H.Accounted(s.hub, stream);
    H.TidyStep(s.hub, H.Publish(user, CountEvent(second), ""));
    PublishApart(s.hub, user, CountEvent(second), stream);
    PublishApart(PublishCount(s, user, second).hub, user, CountEvent(first), stream);
  }

  /**
    Atomic handlers are needed.  Two reads marked at once may publish their counts in the opposite
    order, and then the newest value of every open stream of the user stays one too high.
    */
  lemma {:induction false} RacingHandlersGoStale(s: State, a: string, b: string, user: string, stream: nat)
    requires H.Sane(s.hub) && OpenFor(s, user, stream) && a in Unread(s.rows, user) && b in Unread(s.rows, user) && a != b
    ensures var s1 := Mark(s, a); var first := Count(s1.rows, user);
            var s2 := Mark(s1, b); var second := Count(s2.rows, user);
            var s' := PublishCount(PublishCount(s2, user, second), user, first);
            && stream in s'.hub.chans && stream in s'.hub.notes && H.Window(s'.hub, stream)
            && LastUnread(H.Expected(s'.hub, stream)) == Some(Count(s'.rows, user) + 1)
  {
    var s1 := Mark(s, a);
    var s2 := Mark(s1, b);
    MarkedCounts(s.rows, a, user);
    MarkedCounts(s1.rows, b, user);
    TwoCounts(s2, user, stream, Count(s2.rows, user), Count(s1.rows, user));
  }
}
