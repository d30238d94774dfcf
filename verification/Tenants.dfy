/** The per-tenant report of the administrator against the global statistics on the same tables. */
module Tenants {
  import opened Wrappers
  import D = Delivery
  import History

  /** A row of sending_domains or api_keys, as far as the report reads it. */
  datatype Owned = Owned(user: string)

  datatype Tables = Tables(messages: seq<D.Row>, domains: seq<Owned>, keys: seq<Owned>)

  datatype MsgRow = MsgRow(user: string, total: nat, sent: nat, queued: nat, failed: nat, bounced: nat, last: Option<int>)
  datatype CountRow = CountRow(user: string, n: nat)

  datatype Tenant = Tenant(user: string, messages: nat, sent: nat, queued: nat, failed: nat, bounced: nat,
                           domains: nat, keys: nat, last: Option<int>)

  const SECOND: int := 1_000_000_000

  // Counting

  function Count<T>(xs: seq<T>, p: T -> bool): nat {
    if xs == [] then 0 else Count(xs[1..], p) + if p(xs[0]) then 1 else 0
  }

  lemma {:induction false} CountSplits<T(!new)>(xs: seq<T>, p: T -> bool, q: T -> bool, r: T -> bool)
    requires forall x :: (r(x) <==> p(x) || q(x)) && !(p(x) && q(x))
    ensures Count(xs, r) == Count(xs, p) + Count(xs, q)
  {
    if xs != [] { CountSplits(xs[1..], p, q, r); }
  }

  lemma {:induction false} CountAgrees<T>(xs: seq<T>, p: T -> bool, q: T -> bool)
    requires forall x :: x in xs ==> p(x) == q(x)
    ensures Count(xs, p) == Count(xs, q)
  {
    if xs != [] { CountAgrees(xs[1..], p, q); }
  }

  lemma {:induction false} CountNone<T>(xs: seq<T>, p: T -> bool)
    requires forall x :: x in xs ==> !p(x)
    ensures Count(xs, p) == 0
  {
    if xs != [] { CountNone(xs[1..], p); }
  }

  /** The number of rows of one user with some property. */
  function Per<T>(xs: seq<T>, owner: T -> string, p: T -> bool, user: string): nat {
    if xs == [] then 0 else Per(xs[1..], owner, p, user) + if owner(xs[0]) == user && p(xs[0]) then 1 else 0
  }

  lemma {:induction false} PerIsCount<T>(xs: seq<T>, owner: T -> string, p: T -> bool, user: string, q: T -> bool)
    requires forall x :: x in xs ==> (q(x) <==> owner(x) == user && p(x))
    ensures Per(xs, owner, p, user) == Count(xs, q)
  {
    if xs != [] { PerIsCount(xs[1..], owner, p, user, q); }
  }

  lemma {:induction false} PerNone<T>(xs: seq<T>, owner: T -> string, p: T -> bool, user: string)
    requires forall x :: x in xs ==> !(owner(x) == user && p(x))
    ensures Per(xs, owner, p, user) == 0
  {
    if xs != [] { PerNone(xs[1..], owner, p, user); }
  }

  predicate Any(m: D.Row) { true }
  predicate IsSent(m: D.Row) { m.status == D.Sent }
  predicate IsQueued(m: D.Row) { m.status == D.Queued || m.status == D.Sending }
  predicate IsFailed(m: D.Row) { m.status == D.Failed }
  predicate IsBounced(m: D.Row) { m.status == D.Bounced }
  predicate AnyOwned(o: Owned) { true }
  function MessageUser(m: D.Row): string { m.user }
  function OwnedUser(o: Owned): string { o.user }

  /** MAX(sent_at) over the rows of a user, which ignores rows without one. */
  function LastSent(messages: seq<D.Row>, user: string): Option<int> {
    if messages == [] then None
    else
      var rest := LastSent(messages[1..], user);
      if messages[0].user != user || messages[0].sentAt.None? then rest
      else if rest.None? || rest.value < messages[0].sentAt.value then messages[0].sentAt
      else rest
  }

  /** The entry the report should hold for a user. */
  function TenantOf(t: Tables, user: string): Tenant {
    Tenant(user, Per(t.messages, MessageUser, Any, user), Per(t.messages, MessageUser, IsSent, user),
           Per(t.messages, MessageUser, IsQueued, user), Per(t.messages, MessageUser, IsFailed, user),
           Per(t.messages, MessageUser, IsBounced, user),
           Per(t.domains, OwnedUser, AnyOwned, user), Per(t.keys, OwnedUser, AnyOwned, user),
           LastSent(t.messages, user))
  }

  predicate Appears(t: Tables, user: string) {
    || (exists i :: 0 <= i < |t.messages| && t.messages[i].user == user)
    || (exists i :: 0 <= i < |t.domains| && t.domains[i].user == user)
    || (exists i :: 0 <= i < |t.keys| && t.keys[i].user == user)
  }

  ghost predicate MessagesBy(t: Tables, rows: seq<MsgRow>) {
    && (forall r :: r in rows ==> r == MsgRowOf(t, r.user))
    && (forall m :: m in t.messages ==> exists i :: 0 <= i < |rows| && rows[i].user == m.user)
    && (forall r :: r in rows ==> exists i :: 0 <= i < |t.messages| && t.messages[i].user == r.user)
  }

  /** What the three grouped queries may return: one row per user of the table, in any order. */
  ghost predicate Grouped(t: Tables, msgRows: seq<MsgRow>, domRows: seq<CountRow>, keyRows: seq<CountRow>) {
    && MessagesBy(t, msgRows) && CountedBy(t.domains, domRows) && CountedBy(t.keys, keyRows)
  }

  function MsgRowOf(t: Tables, user: string): MsgRow {
    var x := TenantOf(t, user);
    MsgRow(user, x.messages, x.sent, x.queued, x.failed, x.bounced, x.last)
  }

  ghost predicate CountedBy(table: seq<Owned>, rows: seq<CountRow>) {
    && (forall r :: r in rows ==> r.n == Per(table, OwnedUser, AnyOwned, r.user))
    && (forall o :: o in table ==> exists i :: 0 <= i < |rows| && rows[i].user == o.user)
    && (forall r :: r in rows ==> exists i :: 0 <= i < |table| && table[i].user == r.user)
  }

  // The order of the report

  /** Byte order on user ids. */
  predicate Less(a: string, b: string) {
    if b == "" then false
    else if a == "" then true
    else a[0] < b[0] || (a[0] == b[0] && Less(a[1..], b[1..]))
  }

  lemma {:induction false} LessTotal(a: string, b: string)
    ensures !(Less(a, b) && Less(b, a))
    ensures a != b <==> Less(a, b) || Less(b, a)
  {
    if a != "" && b != "" {
      LessTotal(a[1..], b[1..]);
      assert a == [a[0]] + a[1..] && b == [b[0]] + b[1..];
    }
  }

  lemma {:induction false} LessTransitive(a: string, b: string, c: string)
    requires Less(a, b) && Less(b, c)
    ensures Less(a, c)
  {
    if a != "" && a[0] == b[0] == c[0] {
      LessTransitive(a[1..], b[1..], c[1..]);
    }
  }

  function Unix(last: Option<int>): int { if last.None? then 0 else last.value / SECOND }

  /** Most active first, then most recent second of sending, then by user id. */
  predicate Before(a: Tenant, b: Tenant) {
    if a.messages != b.messages then a.messages > b.messages
    else if Unix(a.last) != Unix(b.last) then Unix(a.last) > Unix(b.last)
    else Less(a.user, b.user)
  }

  /** The comparator is a strict total order on entries of distinct users. */
  lemma BeforeIsStrictTotal(a: Tenant, b: Tenant, c: Tenant)
    ensures !(Before(a, b) && Before(b, a))
    ensures a.user != b.user ==> Before(a, b) || Before(b, a)
    ensures Before(a, b) && Before(b, c) ==> Before(a, c)
  {
    LessTotal(a.user, b.user);
    if Less(a.user, b.user) && Less(b.user, c.user) { LessTransitive(a.user, b.user, c.user); }
  }

  ghost predicate Sorted(out: seq<Tenant>) { forall i, j :: 0 <= i < j < |out| ==> Before(out[i], out[j]) }

  /** One user id comes before another in byte order: at the first difference, or by being shorter. */
  ghost predicate Precedes(a: string, b: string) {
    exists k :: 0 <= k <= |a| && k <= |b| && a[..k] == b[..k]
                && ((k == |a| && k < |b|) || (k < |a| && k < |b| && a[k] < b[k]))
  }

  lemma {:induction false} LessPrecedes(a: string, b: string)
    requires Less(a, b)
    ensures Precedes(a, b)
  {
    if a == "" {
      assert a[..0] == b[..0];
    } else if a[0] < b[0] {
      assert a[..0] == b[..0];
    } else {
      LessPrecedes(a[1..], b[1..]);
      var k :| 0 <= k <= |a[1..]| && k <= |b[1..]| && a[1..][..k] == b[1..][..k]
               && ((k == |a[1..]| && k < |b[1..]|) || (k < |a[1..]| && k < |b[1..]| && a[1..][k] < b[1..][k]));
      assert a[..k + 1] == [a[0]] + a[1..][..k] && b[..k + 1] == [b[0]] + b[1..][..k];
    }
  }

  function SecondOf(last: Option<int>): int { match last case None => 0 case Some(nanos) => nanos / 1_000_000_000 }

  /** The order of any report: larger message counts first, then later seconds of sending, then user ids upwards. */
  lemma ReportOrder(t: Tables, out: seq<Tenant>, i: nat, j: nat)
    requires IsReport(t, out) && i < j < |out|
    ensures var a, b := out[i], out[j];
            || a.messages > b.messages
            || (a.messages == b.messages && SecondOf(a.last) > SecondOf(b.last))
            || (a.messages == b.messages && SecondOf(a.last) == SecondOf(b.last) && Precedes(a.user, b.user))
  {
    assert Before(out[i], out[j]);
    if Less(out[i].user, out[j].user) { LessPrecedes(out[i].user, out[j].user); }
  }

  /** A report: one right entry for each user of the tables, in order. */
  ghost predicate IsReport(t: Tables, out: seq<Tenant>) {
    && (forall x :: x in out ==> x == TenantOf(t, x.user))
    && (forall user :: Appears(t, user) <==> TenantOf(t, user) in out)
    && Sorted(out)
  }

  lemma {:induction false} SortedUnique(a: seq<Tenant>, b: seq<Tenant>)
    requires Sorted(a) && Sorted(b) && forall x :: x in a <==> x in b
    ensures a == b
  {
    assert b != [] ==> b[0] in b;
    if a != [] {
      assert a[0] in b && b != [] && b[0] in a;
      var i :| 0 <= i < |b| && b[i] == a[0];
      var j :| 0 <= j < |a| && a[j] == b[0];
      BeforeIsStrictTotal(a[0], b[0], a[0]);
      assert a[0] == b[0];
      forall x ensures x in a[1..] <==> x in b[1..] {
        BeforeIsStrictTotal(x, x, x);
        assert x in a[1..] ==> x in a && Before(a[0], x);
        assert x in b[1..] ==> x in b && Before(b[0], x);
        assert x in a && x != a[0] ==> x in a[1..];
        assert x in b && x != b[0] ==> x in b[1..];
      }
      SortedUnique(a[1..], b[1..]);
      assert a == [a[0]] + a[1..] && b == [b[0]] + b[1..];
    }
  }

  /** The report is determined by the tables: neither query order nor map iteration order shows in it. */
  lemma ReportIsDetermined(t: Tables, a: seq<Tenant>, b: seq<Tenant>)
    requires IsReport(t, a) && IsReport(t, b)
    ensures a == b
  {
    forall x ensures x in a <==> x in b {
      if x in a {
        assert TenantOf(t, x.user) in a;
        assert Appears(t, x.user);
      }
      if x in b {
        assert TenantOf(t, x.user) in b;
        assert Appears(t, x.user);
      }
    }
    SortedUnique(a, b);
  }

  // Conservation

  function Column(out: seq<Tenant>, f: Tenant -> nat): nat {
    if out == [] then 0 else f(out[0]) + Column(out[1..], f)
  }

  function MessagesOf(x: Tenant): nat { x.messages }
  function SentOf(x: Tenant): nat { x.sent }
  function QueuedOf(x: Tenant): nat { x.queued }
  function FailedOf(x: Tenant): nat { x.failed }
  function BouncedOf(x: Tenant): nat { x.bounced }
  function DomainsOf(x: Tenant): nat { x.domains }
  function KeysOf(x: Tenant): nat { x.keys }

  predicate Listed(out: seq<Tenant>, user: string) { exists i :: 0 <= i < |out| && out[i].user == user }

  /** A column of per-user counts sums to the count over the rows of the listed users. */
  lemma {:induction false} ColumnPartition<T(!new)>(out: seq<Tenant>, f: Tenant -> nat,
                                                   xs: seq<T>, owner: T -> string, p: T -> bool)
    requires forall i, j :: 0 <= i < j < |out| ==> out[i].user != out[j].user
    requires forall i :: 0 <= i < |out| ==> f(out[i]) == Per(xs, owner, p, out[i].user)
    ensures Column(out, f) == Count(xs, x => Listed(out, owner(x)) && p(x))
  {
    var listed := x => Listed(out, owner(x)) && p(x);
    if out == [] {
      CountNone(xs, listed);
    } else {
      var rest := out[1..];
      ColumnPartition(rest, f, xs, owner, p);
      var first, others := x => owner(x) == out[0].user && p(x), x => Listed(rest, owner(x)) && p(x);
      forall x ensures (listed(x) <==> first(x) || others(x)) && !(first(x) && others(x)) {
        if Listed(out, owner(x)) && owner(x) != out[0].user {
          var i :| 0 <= i < |out| && out[i].user == owner(x);
          assert rest[i - 1].user == owner(x);
        }
        if Listed(rest, owner(x)) {
          var i :| 0 <= i < |rest| && rest[i].user == owner(x);
          assert out[i + 1].user == owner(x);
        }
      }
      PerIsCount(xs, owner, p, out[0].user, first);
      CountSplits(xs, first, others, listed);
    }
  }

  lemma ReportUsersDiffer(t: Tables, out: seq<Tenant>)
    requires IsReport(t, out)
    ensures forall i, j :: 0 <= i < j < |out| ==> out[i].user != out[j].user
  {
    forall i, j | 0 <= i < j < |out| ensures out[i].user != out[j].user {
      assert out[i] in out && out[j] in out && Before(out[i], out[j]);
      BeforeIsStrictTotal(out[i], out[j], out[i]);
    }
  }

  lemma ColumnConserves<T(!new)>(t: Tables, out: seq<Tenant>, f: Tenant -> nat, xs: seq<T>, owner: T -> string, p: T -> bool)
    requires IsReport(t, out)
    requires forall x :: x in xs ==> Appears(t, owner(x))
    requires forall i :: 0 <= i < |out| ==> f(out[i]) == Per(xs, owner, p, out[i].user)
    ensures Column(out, f) == Count(xs, p)
  {
    ReportUsersDiffer(t, out);
    ColumnPartition(out, f, xs, owner, p);
    forall x | x in xs ensures Listed(out, owner(x)) {
      assert TenantOf(t, owner(x)) in out;
      var i :| 0 <= i < |out| && out[i] == TenantOf(t, owner(x));
      assert out[i].user == owner(x);
    }
    CountAgrees(xs, x => Listed(out, owner(x)) && p(x), p);
  }

  lemma {:induction false} CountAll<T>(xs: seq<T>, p: T -> bool)
    requires forall x :: x in xs ==> p(x)
    ensures Count(xs, p) == |xs|
  {
    if xs != [] { CountAll(xs[1..], p); }
  }

  /** Every entry of a report, column by column. */
  lemma EntriesAreRight(t: Tables, out: seq<Tenant>, x: Tenant)
    requires IsReport(t, out) && x in out
    ensures x.messages == Count(t.messages, (m: D.Row) => m.user == x.user)
    ensures x.sent == Count(t.messages, (m: D.Row) => m.user == x.user && m.status == D.Sent)
    ensures x.queued == Count(t.messages, (m: D.Row) => m.user == x.user && (m.status == D.Queued || m.status == D.Sending))
    ensures x.failed == Count(t.messages, (m: D.Row) => m.user == x.user && m.status == D.Failed)
    ensures x.bounced == Count(t.messages, (m: D.Row) => m.user == x.user && m.status == D.Bounced)
    ensures x.domains == Count(t.domains, (o: Owned) => o.user == x.user)
    ensures x.keys == Count(t.keys, (o: Owned) => o.user == x.user)
    ensures IsLatest(t.messages, x.user, x.last)
  {
    PerIsCount(t.messages, MessageUser, Any, x.user, (m: D.Row) => m.user == x.user);
    PerIsCount(t.messages, MessageUser, IsSent, x.user, (m: D.Row) => m.user == x.user && m.status == D.Sent);
    PerIsCount(t.messages, MessageUser, IsQueued, x.user,
               (m: D.Row) => m.user == x.user && (m.status == D.Queued || m.status == D.Sending));
    PerIsCount(t.messages, MessageUser, IsFailed, x.user, (m: D.Row) => m.user == x.user && m.status == D.Failed);
    PerIsCount(t.messages, MessageUser, IsBounced, x.user, (m: D.Row) => m.user == x.user && m.status == D.Bounced);
    PerIsCount(t.domains, OwnedUser, AnyOwned, x.user, (o: Owned) => o.user == x.user);
    PerIsCount(t.keys, OwnedUser, AnyOwned, x.user, (o: Owned) => o.user == x.user);
    LatestSent(t.messages, x.user);
  }

  /** The latest time of sending among the user's messages, if any was sent. */
  predicate IsLatest(messages: seq<D.Row>, user: string, last: Option<int>) {
    && (forall m :: m in messages && m.user == user && m.sentAt.Some? ==> last.Some? && m.sentAt.value <= last.value)
    && (last.Some? ==> exists i :: 0 <= i < |messages| && messages[i].user == user && messages[i].sentAt == last)
  }

  lemma {:induction false} LatestSent(messages: seq<D.Row>, user: string)
    ensures IsLatest(messages, user, LastSent(messages, user))
  {
    if messages != [] {
      LatestSent(messages[1..], user);
      var last, rest := LastSent(messages, user), LastSent(messages[1..], user);
      if last.Some? {
        if last == rest {
          var i :| 0 <= i < |messages[1..]| && messages[1..][i].user == user && messages[1..][i].sentAt == rest;
          assert messages[i + 1] == messages[1..][i];
        } else {
          assert messages[0].user == user && messages[0].sentAt == last;
        }
      }
      forall m | m in messages && m.user == user && m.sentAt.Some? ensures last.Some? && m.sentAt.value <= last.value {
        assert m == messages[0] || m in messages[1..];
      }
    }
  }

  /** AdminStats, as far as the report can be compared with it. */
  datatype Stats = Stats(total: nat, sent: nat, queued: nat, failed: nat, bounced: nat, domains: nat, keys: nat)

  function AdminStats(t: Tables): Stats {
    Stats(|t.messages|, Count(t.messages, IsSent), Count(t.messages, IsQueued), Count(t.messages, IsFailed),
          Count(t.messages, IsBounced), |t.domains|, |t.keys|)
  }

  lemma MessageColumn(t: Tables, out: seq<Tenant>, f: Tenant -> nat, p: D.Row -> bool)
    requires IsReport(t, out)
    requires forall x :: x in out ==> f(x) == Per(t.messages, MessageUser, p, x.user)
    ensures Column(out, f) == Count(t.messages, p)
  {
    ColumnConserves(t, out, f, t.messages, MessageUser, p);
  }

  /** The report conserves: its columns sum to the global statistics on the same tables. */
  lemma ReportConserves(t: Tables, out: seq<Tenant>)
    requires IsReport(t, out)
    ensures Stats(Column(out, MessagesOf), Column(out, SentOf), Column(out, QueuedOf),
                  Column(out, FailedOf), Column(out, BouncedOf),
                  Column(out, DomainsOf), Column(out, KeysOf)) == AdminStats(t)
    ensures AdminStats(t) == Stats(|t.messages|, Count(t.messages, (m: D.Row) => m.status == D.Sent),
                                   Count(t.messages, (m: D.Row) => m.status == D.Queued || m.status == D.Sending),
                                   Count(t.messages, (m: D.Row) => m.status == D.Failed),
                                   Count(t.messages, (m: D.Row) => m.status == D.Bounced), |t.domains|, |t.keys|)
  {
    CountAgrees(t.messages, IsSent, (m: D.Row) => m.status == D.Sent);
    CountAgrees(t.messages, IsQueued, (m: D.Row) => m.status == D.Queued || m.status == D.Sending);
    CountAgrees(t.messages, IsFailed, (m: D.Row) => m.status == D.Failed);
    CountAgrees(t.messages, IsBounced, (m: D.Row) => m.status == D.Bounced);
    MessageColumn(t, out, MessagesOf, Any);
    MessageColumn(t, out, SentOf, IsSent);
    MessageColumn(t, out, QueuedOf, IsQueued);
    MessageColumn(t, out, FailedOf, IsFailed);
    MessageColumn(t, out, BouncedOf, IsBounced);
    ColumnConserves(t, out, DomainsOf, t.domains, OwnedUser, AnyOwned);
    ColumnConserves(t, out, KeysOf, t.keys, OwnedUser, AnyOwned);
    CountAll(t.messages, Any);
    CountAll(t.domains, AnyOwned);
    CountAll(t.keys, AnyOwned);
  }

  /** The bounced column is zero in every run of the delivery queue from an empty table. */
  lemma BouncedColumnIsZero(t: Tables, out: seq<Tenant>, maxPerHour: int, workers: nat, now: int, steps: seq<D.Step>)
    requires IsReport(t, out) && D.Runs(D.Boot(map[], [], maxPerHour, workers, now), steps)
    requires forall m :: m in t.messages ==> m in D.Run(D.Boot(map[], [], maxPerHour, workers, now), steps).rows.Values
    ensures forall x :: x in out ==> x.bounced == 0
  {
    var s := D.Boot(map[], [], maxPerHour, workers, now);
    forall m | m in t.messages ensures !IsBounced(m) {
      var id :| id in D.Run(s, steps).rows && D.Run(s, steps).rows[id] == m;
      History.NeverBounced(s, steps, id);
    }
    forall x | x in out ensures x.bounced == 0 {
      PerNone(t.messages, MessageUser, IsBounced, x.user);
    }
  }

  // The handler

  function LastMsg(rows: seq<MsgRow>, user: string): Option<MsgRow> {
    if rows == [] then None
    else if rows[|rows| - 1].user == user then Some(rows[|rows| - 1])
    else LastMsg(rows[..|rows| - 1], user)
  }

  function LastCount(rows: seq<CountRow>, user: string): Option<CountRow> {
    if rows == [] then None
    else if rows[|rows| - 1].user == user then Some(rows[|rows| - 1])
    else LastCount(rows[..|rows| - 1], user)
  }

  function CountOr0(row: Option<CountRow>): nat { match row case None => 0 case Some(r) => r.n }

  function MsgOr0(row: Option<MsgRow>, user: string): MsgRow {
    match row case None => MsgRow(user, 0, 0, 0, 0, 0, None) case Some(m) => m
  }

  /** What the map holds for a user once these rows have been merged. */
  function Merged(msgRows: seq<MsgRow>, domRows: seq<CountRow>, keyRows: seq<CountRow>, user: string): Tenant {
    var d, k := CountOr0(LastCount(domRows, user)), CountOr0(LastCount(keyRows, user));
    var m := MsgOr0(LastMsg(msgRows, user), user);
    Tenant(user, m.total, m.sent, m.queued, m.failed, m.bounced, d, k, m.last)
  }

  predicate Seen(msgRows: seq<MsgRow>, domRows: seq<CountRow>, keyRows: seq<CountRow>, user: string) {
    LastMsg(msgRows, user).Some? || LastCount(domRows, user).Some? || LastCount(keyRows, user).Some?
  }

  ghost predicate Holds(entries: map<string, Tenant>, msgRows: seq<MsgRow>, domRows: seq<CountRow>, keyRows: seq<CountRow>) {
    && (forall user :: user in entries <==> Seen(msgRows, domRows, keyRows, user))
    && (forall user :: user in entries ==> entries[user] == Merged(msgRows, domRows, keyRows, user))
  }

  /** The closure get: the entry of a user, new and empty if there is none. */
  function Get(entries: map<string, Tenant>, user: string): Tenant {
    if user in entries then entries[user] else Tenant(user, 0, 0, 0, 0, 0, 0, 0, None)
  }

  lemma LastMsgStep(rows: seq<MsgRow>, i: nat, user: string)
    requires i < |rows|
    ensures LastMsg(rows[..i + 1], user) == if rows[i].user == user then Some(rows[i]) else LastMsg(rows[..i], user)
  {
    assert rows[..i + 1][..i] == rows[..i];
  }

  lemma LastCountStep(rows: seq<CountRow>, i: nat, user: string)
    requires i < |rows|
    ensures LastCount(rows[..i + 1], user) == if rows[i].user == user then Some(rows[i]) else LastCount(rows[..i], user)
  {
    assert rows[..i + 1][..i] == rows[..i];
  }

  lemma MessageStep(entries: map<string, Tenant>, rows: seq<MsgRow>, i: nat)
    requires i < |rows| && Holds(entries, rows[..i], [], [])
    ensures var m := rows[i];
            Holds(entries[m.user := Get(entries, m.user).(messages := m.total, sent := m.sent, queued := m.queued,
                                                          failed := m.failed, bounced := m.bounced, last := m.last)],
                  rows[..i + 1], [], [])
  {
    forall user { LastMsgStep(rows, i, user); }
  }

  lemma DomainStep(entries: map<string, Tenant>, msgRows: seq<MsgRow>, rows: seq<CountRow>, i: nat)
    requires i < |rows| && Holds(entries, msgRows, rows[..i], [])
    ensures Holds(entries[rows[i].user := Get(entries, rows[i].user).(domains := rows[i].n)], msgRows, rows[..i + 1], [])
  {
    forall user { LastCountStep(rows, i, user); }
  }

  lemma KeyStep(entries: map<string, Tenant>, msgRows: seq<MsgRow>, domRows: seq<CountRow>, rows: seq<CountRow>, i: nat)
    requires i < |rows| && Holds(entries, msgRows, domRows, rows[..i])
    ensures Holds(entries[rows[i].user := Get(entries, rows[i].user).(keys := rows[i].n)], msgRows, domRows, rows[..i + 1])
  {
    forall user { LastCountStep(rows, i, user); }
  }

  /** The three loops that fill the map. */
  method Merge(msgRows: seq<MsgRow>, domRows: seq<CountRow>, keyRows: seq<CountRow>) returns (entries: map<string, Tenant>)
    ensures Holds(entries, msgRows, domRows, keyRows)
  {
    entries := map[];
    for i := 0 to |msgRows|
      invariant Holds(entries, msgRows[..i], [], [])
    {
      var m := msgRows[i];
      MessageStep(entries, msgRows, i);
      entries := entries[m.user := Get(entries, m.user).(messages := m.total, sent := m.sent, queued := m.queued,
                                                         failed := m.failed, bounced := m.bounced, last := m.last)];
    }
    assert msgRows[..|msgRows|] == msgRows;
    for i := 0 to |domRows|
      invariant Holds(entries, msgRows, domRows[..i], [])
    {
      var d := domRows[i];
      DomainStep(entries, msgRows, domRows, i);
      entries := entries[d.user := Get(entries, d.user).(domains := d.n)];
    }
    assert domRows[..|domRows|] == domRows;
    for i := 0 to |keyRows|
      invariant Holds(entries, msgRows, domRows, keyRows[..i])
    {
      var k := keyRows[i];
      KeyStep(entries, msgRows, domRows, keyRows, i);
      entries := entries[k.user := Get(entries, k.user).(keys := k.n)];
    }
    assert keyRows[..|keyRows|] == keyRows;
  }

  lemma {:induction false} LastMsgIs(rows: seq<MsgRow>, user: string)
    ensures LastMsg(rows, user).None? <==> forall i :: 0 <= i < |rows| ==> rows[i].user != user
    ensures LastMsg(rows, user).Some? ==> LastMsg(rows, user).value in rows && LastMsg(rows, user).value.user == user
  {
    if rows != [] {
      var n := |rows| - 1;
      LastMsgIs(rows[..n], user);
      assert rows == rows[..n] + [rows[n]];
    }
  }

  lemma {:induction false} LastCountIs(rows: seq<CountRow>, user: string)
    ensures LastCount(rows, user).None? <==> forall i :: 0 <= i < |rows| ==> rows[i].user != user
    ensures LastCount(rows, user).Some? ==> LastCount(rows, user).value in rows && LastCount(rows, user).value.user == user
  {
    if rows != [] {
      var n := |rows| - 1;
      LastCountIs(rows[..n], user);
      assert rows == rows[..n] + [rows[n]];
    }
  }

  lemma CountsMatch(table: seq<Owned>, rows: seq<CountRow>, user: string)
    requires CountedBy(table, rows)
    ensures CountOr0(LastCount(rows, user)) == Per(table, OwnedUser, AnyOwned, user)
    ensures LastCount(rows, user).Some? <==> exists i :: 0 <= i < |table| && table[i].user == user
  {
    LastCountIs(rows, user);
    var row := LastCount(rows, user);
    if row.None? {
      forall o | o in table ensures OwnedUser(o) != user { var i :| 0 <= i < |rows| && rows[i].user == o.user; }
      PerNone(table, OwnedUser, AnyOwned, user);
    } else {
      assert row.value in rows;
    }
  }

  lemma {:induction false} NothingSent(messages: seq<D.Row>, user: string)
    requires forall m :: m in messages ==> m.user != user
    ensures LastSent(messages, user) == None
  {
    if messages != [] { NothingSent(messages[1..], user); }
  }

  lemma NoMessages(t: Tables, user: string)
    requires forall m :: m in t.messages ==> m.user != user
    ensures MsgRowOf(t, user) == MsgRow(user, 0, 0, 0, 0, 0, None)
  {
    NothingSent(t.messages, user);
    PerNone(t.messages, MessageUser, Any, user);
    PerNone(t.messages, MessageUser, IsSent, user);
    PerNone(t.messages, MessageUser, IsQueued, user);
    PerNone(t.messages, MessageUser, IsFailed, user);
    PerNone(t.messages, MessageUser, IsBounced, user);
  }

  lemma MessagesMatch(t: Tables, rows: seq<MsgRow>, user: string)
    requires MessagesBy(t, rows)
    ensures MsgOr0(LastMsg(rows, user), user) == MsgRowOf(t, user)
    ensures LastMsg(rows, user).Some? <==> exists i :: 0 <= i < |t.messages| && t.messages[i].user == user
  {
    LastMsgIs(rows, user);
    var row := LastMsg(rows, user);
    if row.None? {
      forall m | m in t.messages ensures m.user != user { var i :| 0 <= i < |rows| && rows[i].user == m.user; }
      NoMessages(t, user);
    } else {
      assert row.value in rows;
    }
  }

  /** Merging grouped rows gives the right entry, for exactly the union of the users of the tables. */
  lemma MergedIsRight(t: Tables, msgRows: seq<MsgRow>, domRows: seq<CountRow>, keyRows: seq<CountRow>, user: string)
    requires Grouped(t, msgRows, domRows, keyRows)
    ensures Merged(msgRows, domRows, keyRows, user) == TenantOf(t, user)
    ensures Seen(msgRows, domRows, keyRows, user) <==> Appears(t, user)
  {
    CountsMatch(t.domains, domRows, user);
    CountsMatch(t.keys, keyRows, user);
    MessagesMatch(t, msgRows, user);
  }

  lemma Placed(out: seq<Tenant>, x: Tenant, i: nat)
    requires Sorted(out) && i <= |out| && forall y :: y in out ==> y.user != x.user
    requires (forall j :: 0 <= j < i ==> Before(out[j], x)) && (i < |out| ==> !Before(out[i], x))
    ensures var longer := out[..i] + [x] + out[i..];
            Sorted(longer) && forall y :: y in longer <==> y in out || y == x
  {
    forall j | i <= j < |out| ensures Before(x, out[j]) {
      assert out[i] in out && out[j] in out;
      BeforeIsStrictTotal(x, out[i], out[j]);
    }
    assert out == out[..i] + out[i..];
  }

  /** A place for a new entry, as an insertion sort finds it; only order and contents matter below. */
  method Insert(out: seq<Tenant>, x: Tenant) returns (longer: seq<Tenant>)
    requires Sorted(out) && forall y :: y in out ==> y.user != x.user
    ensures Sorted(longer) && forall y :: y in longer <==> y in out || y == x
  {
    var i := 0;
    while i < |out| && Before(out[i], x)
      invariant i <= |out| && forall j :: 0 <= j < i ==> Before(out[j], x)
    {
      i := i + 1;
    }
    Placed(out, x, i);
    longer := out[..i] + [x] + out[i..];
  }

  /**
    The report.  The map is read in an arbitrary order and then sorted; whatever that order, the
    result is the report of the tables, which is unique.
    */
  method ListTenants(ghost t: Tables, msgRows: seq<MsgRow>, domRows: seq<CountRow>, keyRows: seq<CountRow>)
    returns (out: seq<Tenant>)
    requires Grouped(t, msgRows, domRows, keyRows)
    ensures IsReport(t, out)
  {
    var entries := Merge(msgRows, domRows, keyRows);
    forall user { MergedIsRight(t, msgRows, domRows, keyRows, user); }
    out := [];
    var rest := entries.Keys;
    while rest != {}
      invariant rest <= entries.Keys && Sorted(out)
      invariant forall x :: x in out <==> x.user in entries && x.user !in rest && x == entries[x.user]
      decreases |rest|
    {
      var user :| user in rest;
      rest := rest - {user};
      out := Insert(out, entries[user]);
    }
  }
}
