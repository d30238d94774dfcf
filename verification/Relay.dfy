/**
  The SMTP relay session.  Each verb carries what the database and the clock answer at that moment,
  so a sequence of verbs is a session against an arbitrarily changing database.
  */
module Relay {
  import opened Wrappers
  import opened Mime
  import opened Scanner

  datatype Key = Key(id: nat, user: string, expires: Option<int>)

  datatype Domain = Domain(id: nat, name: string, user: string, status: string)

  /** The tables a verb sees; hash is the opaque digest under which keys are stored. */
  datatype World = World(hash: string -> string, keys: map<string, Key>, domains: seq<Domain>, now: int)

  /** failing is the position of the first insert that the database refuses, if any. */
  datatype Verb =
    | Auth(world: World, username: string, password: string)
    | Mail(from: string)
    | Rcpt(to: string)
    | Data(world: World, data: Option<string>, failing: Option<nat>)
    | Reset

  datatype Session = Session(authenticated: bool, user: string, key: nat, from: string, to: seq<string>)

  datatype Queued = Queued(user: string, domain: nat, key: nat, from: string, to: string, subject: string, raw: string)

  datatype Reply = Accepted | AuthRequired | MissingKey | InvalidKey | ExpiredKey | ReadFailed | NotVerified | NotQueued

  const VERIFIED := "verified"

  /** The position of the key among the two credentials: the password unless the username is not a known alias. */
  function PresentedKey(username: string, password: string): string {
    if Lower(username) != "apikey" && Lower(username) != "api" then username else password
  }

  /** The credential an Auth verb establishes, if it succeeds. */
  function Credential(verb: Verb): Option<Key> {
    match verb
    case Auth(w, username, password) =>
      var key := PresentedKey(username, password);
      if key == "" || w.hash(key) !in w.keys then None
      else
        var found := w.keys[w.hash(key)];
        if found.expires.Some? && found.expires.value < w.now then None else Some(found)
    case _ => None
  }

  /** The verb presents k: its key, in whichever field it stands, is one the tables hold as k and has not expired. */
  predicate Establishes(verb: Verb, k: Key) {
    && verb.Auth?
    && var key := if Lower(verb.username) == "apikey" || Lower(verb.username) == "api" then verb.password else verb.username;
    && key != "" && verb.world.hash(key) in verb.world.keys && verb.world.keys[verb.world.hash(key)] == k
    && (k.expires.None? || verb.world.now <= k.expires.value)
  }

  lemma CredentialIs(verb: Verb)
    ensures forall k :: Establishes(verb, k) <==> Credential(verb) == Some(k)
    ensures Credential(verb).None? <==> !exists k :: Establishes(verb, k)
  {
    if Credential(verb).Some? { assert Establishes(verb, Credential(verb).value); }
  }

  function AfterLastAt(address: string): string {
    if address == "" || address[|address| - 1] == '@' then ""
    else AfterLastAt(address[..|address| - 1]) + [address[|address| - 1]]
  }

  /** The part after the last at sign, or all of it if there is none. */
  lemma {:induction false} AfterLastAtIs(address: string)
    ensures var domain := AfterLastAt(address);
            && '@' !in domain && |domain| <= |address| && domain == address[|address| - |domain|..]
            && (|domain| < |address| ==> address[|address| - |domain| - 1] == '@')
  {
    if address != "" && address[|address| - 1] != '@' { AfterLastAtIs(address[..|address| - 1]); }
  }

  /** The first verified entry of that domain owned by the user. */
  function FindDomain(domains: seq<Domain>, name: string, user: string): (d: Option<Domain>)
    ensures d.Some? ==> d.value in domains && d.value.name == name && d.value.user == user && d.value.status == VERIFIED
    ensures d.None? ==> forall x :: x in domains ==> !(x.name == name && x.user == user && x.status == VERIFIED)
  {
    if domains == [] then None
    else if domains[0].name == name && domains[0].user == user && domains[0].status == VERIFIED then Some(domains[0])
    else FindDomain(domains[1..], name, user)
  }

  function Messages(s: Session, domain: nat, subject: string, raw: string, to: seq<string>): seq<Queued> {
    seq(|to|, i requires 0 <= i < |to| => Queued(s.user, domain, s.key, s.from, to[i], subject, raw))
  }

  /** How many of the recipients are stored: all of them, or those before the insert that fails. */
  function Stored(to: seq<string>, failing: Option<nat>): nat {
    if failing.Some? && failing.value < |to| then failing.value else |to|
  }

  function Subject(raw: string): string { FieldValue(SplitLF(raw), "Subject") }

  /** What a Data verb puts on the queue. */
  function Output(s: Session, verb: Verb): seq<Queued> {
    if !verb.Data? || verb.data.None? || !s.authenticated then []
    else
      match FindDomain(verb.world.domains, AfterLastAt(s.from), s.user)
      case None => []
      case Some(d) =>
        var raw := verb.data.value;
        Messages(s, d.id, Subject(raw), raw, s.to[..Stored(s.to, verb.failing)])
  }

  function Next(s: Session, verb: Verb): Session {
    match verb
    case Auth(_, _, _) =>
      (match Credential(verb) case None => s case Some(k) => s.(authenticated := true, user := k.user, key := k.id))
    case Mail(from) => if s.authenticated then s.(from := from) else s
    case Rcpt(to) => if s.authenticated then s.(to := s.to + [to]) else s
    case Data(_, _, _) => s
    case Reset => s.(from := "", to := [])
  }

  const FRESH := Session(false, "", 0, "", [])

  /** The session after some verbs, and everything it has queued by then. */
  function After(verbs: seq<Verb>): Session {
    if verbs == [] then FRESH else Next(After(verbs[..|verbs| - 1]), verbs[|verbs| - 1])
  }

  function Outbox(verbs: seq<Verb>): seq<Queued> {
    if verbs == [] then []
    else Outbox(verbs[..|verbs| - 1]) + Output(After(verbs[..|verbs| - 1]), verbs[|verbs| - 1])
  }

  /** The session object. */
  class RelaySession {
    var authenticated: bool
    var user: string
    var key: nat
    var from: string
    var to: seq<string>
    var outbox: seq<Queued>

    ghost function View(): Session
      reads this
    {
      Session(authenticated, user, key, from, to)
    }

    constructor ()
      ensures View() == FRESH && outbox == []
    {
      authenticated, user, key, from, to, outbox := false, "", 0, "", [], [];
    }

    method Auth(w: World, username: string, password: string) returns (reply: Reply)
      modifies this`authenticated, this`user, this`key
      ensures View() == Next(old(View()), Verb.Auth(w, username, password))
      ensures var key := if Lower(username) == "apikey" || Lower(username) == "api" then password else username;
              && (reply == MissingKey <==> key == "")
              && (reply == InvalidKey <==> key != "" && w.hash(key) !in w.keys)
              && (reply == ExpiredKey <==> key != "" && w.hash(key) in w.keys && w.keys[w.hash(key)].expires.Some?
                                           && w.keys[w.hash(key)].expires.value < w.now)
              && (reply == Accepted <==> key != "" && w.hash(key) in w.keys
                                         && (w.keys[w.hash(key)].expires.Some? ==> w.now <= w.keys[w.hash(key)].expires.value))
              && (reply == Accepted ==> authenticated && user == w.keys[w.hash(key)].user && this.key == w.keys[w.hash(key)].id)
      ensures reply != Accepted ==> View() == old(View())
    {
      var presented := password;
      if Lower(username) != "apikey" && Lower(username) != "api" {
        presented := username;
      }
      if presented == "" {
        return MissingKey;
      }
      var hash := w.hash(presented);
      if hash !in w.keys {
        return InvalidKey;
      }
      var found := w.keys[hash];
      if found.expires.Some? && found.expires.value < w.now {
        return ExpiredKey;
      }
      authenticated, user, key := true, found.user, found.id;
      reply := Accepted;
    }

    method Mail(sender: string) returns (reply: Reply)
      modifies this`from
      ensures View() == Next(old(View()), Verb.Mail(sender))
      ensures from == if authenticated then sender else old(from)
      ensures reply == if authenticated then Accepted else AuthRequired
    {
      if !authenticated {
        return AuthRequired;
      }
      from := sender;
      reply := Accepted;
    }

    method Rcpt(recipient: string) returns (reply: Reply)
      modifies this`to
      ensures View() == Next(old(View()), Verb.Rcpt(recipient))
      ensures to == if authenticated then old(to) + [recipient] else old(to)
      ensures reply == if authenticated then Accepted else AuthRequired
    {
      if !authenticated {
        return AuthRequired;
      }
      to := to + [recipient];
      reply := Accepted;
    }

    method Data(w: World, data: Option<string>, failing: Option<nat>) returns (reply: Reply)
      modifies this`outbox
      ensures outbox == old(outbox) + Output(View(), Verb.Data(w, data, failing))
      ensures reply == AuthRequired <==> !authenticated
      ensures reply == ReadFailed <==> authenticated && data.None?
      ensures reply == NotVerified <==>
                && authenticated && data.Some?
                && forall d :: d in w.domains ==> !(d.name == AfterLastAt(from) && d.user == user && d.status == "verified")
      ensures reply == Accepted ==> |outbox| == old(|outbox|) + |to|
      ensures reply == NotQueued ==> failing.Some? && |outbox| == old(|outbox|) + failing.value < old(|outbox|) + |to|
      ensures reply == Accepted || reply == NotQueued || (reply in [AuthRequired, ReadFailed, NotVerified] && outbox == old(outbox))
    {
      if !authenticated {
        return AuthRequired;
      }
      if data.None? {
        return ReadFailed;
      }
      var subject := ExtractHeader(data.value, "Subject");
      var domain := FindDomain(w.domains, AfterLastAt(from), user);
      if domain.None? {
        return NotVerified;
      }
      var queued := QueueAll(domain.value.id, subject, data.value, failing);
      reply := if queued then Accepted else NotQueued;
    }

    /** One insert per recipient; the first that fails ends the loop. */
    method QueueAll(domain: nat, subject: string, raw: string, failing: Option<nat>) returns (all: bool)
      modifies this`outbox
      ensures outbox == old(outbox) + Messages(View(), domain, subject, raw, to[..Stored(to, failing)])
      ensures all <==> Stored(to, failing) == |to|
    {
      ghost var before, s := outbox, View();
      for i := 0 to |to|
        invariant i <= Stored(to, failing)
        invariant outbox == before + Messages(s, domain, subject, raw, to[..i])
      {
        if failing == Some(i) {
          return false;
        }
        outbox := outbox + [Queued(user, domain, key, from, to[i], subject, raw)];
      }
      all := true;
    }

    method Reset()
      modifies this`from, this`to
      ensures View() == Next(old(View()), Verb.Reset)
      ensures from == "" && to == []
    {
      from, to := "", [];
    }
  }

  // The session as a function of its history

  /** The credential of the latest successful Auth. */
  function LatestAuth(verbs: seq<Verb>): Option<Key> {
    if verbs == [] then None
    else if Credential(verbs[|verbs| - 1]).Some? then Credential(verbs[|verbs| - 1])
    else LatestAuth(verbs[..|verbs| - 1])
  }

  /** Where the current transaction starts: after the last Reset, or at the beginning. */
  function TransactionStart(verbs: seq<Verb>): (start: nat)
    ensures start <= |verbs| && (start > 0 ==> verbs[start - 1].Reset?)
    ensures forall i :: start <= i < |verbs| ==> !verbs[i].Reset?
  {
    if verbs == [] then 0
    else if verbs[|verbs| - 1].Reset? then |verbs|
    else TransactionStart(verbs[..|verbs| - 1])
  }

  /** The recipients named from position start on, by verbs that came after some successful Auth. */
  function RecipientsFrom(verbs: seq<Verb>, start: nat): seq<string>
    requires start <= |verbs|
  {
    if start == |verbs| then []
    else
      var n := |verbs| - 1;
      RecipientsFrom(verbs[..n], start) + if verbs[n].Rcpt? && LatestAuth(verbs[..n]).Some? then [verbs[n].to] else []
  }

  function SenderFrom(verbs: seq<Verb>, start: nat): string
    requires start <= |verbs|
  {
    if start == |verbs| then ""
    else
      var n := |verbs| - 1;
      if verbs[n].Mail? && LatestAuth(verbs[..n]).Some? then verbs[n].from else SenderFrom(verbs[..n], start)
  }

  function Recipients(verbs: seq<Verb>): seq<string> { RecipientsFrom(verbs, TransactionStart(verbs)) }

  function Sender(verbs: seq<Verb>): string { SenderFrom(verbs, TransactionStart(verbs)) }

  lemma StartOfInit(verbs: seq<Verb>)
    requires verbs != [] && !verbs[|verbs| - 1].Reset?
    ensures TransactionStart(verbs) == TransactionStart(verbs[..|verbs| - 1]) < |verbs|
  {
  }

  /**
    The session, after any verbs whatever, is what its history says: the identity of the latest
    successful Auth, which no Reset clears, and the sender and recipients accepted since the last
    Reset.
    */
  lemma {:induction false} SessionIsHistory(verbs: seq<Verb>)
    ensures var s := After(verbs);
            && s.authenticated == LatestAuth(verbs).Some?
            && (LatestAuth(verbs).Some? ==> s.user == LatestAuth(verbs).value.user && s.key == LatestAuth(verbs).value.id)
            && s.to == Recipients(verbs)
            && s.from == Sender(verbs)
  {
    if verbs != [] {
      var init, last := verbs[..|verbs| - 1], verbs[|verbs| - 1];
      SessionIsHistory(init);
      if !last.Reset? {
        StartOfInit(verbs);
      }
    }
  }

  /** The identity in force: of an Auth that establishes k, after which none establishes anything. */
  ghost predicate InForce(verbs: seq<Verb>, j: nat, k: Key) {
    j < |verbs| && Establishes(verbs[j], k) && forall l, other :: j < l < |verbs| ==> !Establishes(verbs[l], other)
  }

  /** Some Auth before position j establishes an identity, so a Mail or Rcpt there is accepted. */
  ghost predicate Heeded(verbs: seq<Verb>, j: nat) { exists i, k :: 0 <= i < j && i < |verbs| && Establishes(verbs[i], k) }

  predicate NoResetAfter(verbs: seq<Verb>, j: nat) { forall l :: j <= l < |verbs| ==> !verbs[l].Reset? }

  /** The recipient was named by a Rcpt that was accepted, with no Reset since. */
  ghost predicate Named(verbs: seq<Verb>, to: string) {
    exists j :: 0 <= j < |verbs| && verbs[j] == Rcpt(to) && Heeded(verbs, j) && NoResetAfter(verbs, j)
  }

  /** The sender of the last Mail accepted since the last Reset, or empty if there was none. */
  ghost predicate SentBy(verbs: seq<Verb>, from: string) {
    || (exists j :: 0 <= j < |verbs| && verbs[j] == Verb.Mail(from) && Heeded(verbs, j) && NoResetAfter(verbs, j)
                    && forall l :: j < l < |verbs| ==> !verbs[l].Mail?)
    || (from == "" && forall j :: 0 <= j < |verbs| && verbs[j].Mail? && Heeded(verbs, j) ==> !NoResetAfter(verbs, j))
  }

  /** A queued message is backed by history: who authenticated, what they own, and whom they named. */
  ghost predicate Authorised(q: Queued, before: seq<Verb>, verb: Verb) {
    && verb.Data? && verb.data == Some(q.raw)
    && (exists j, k :: InForce(before, j, k) && q.user == k.user && q.key == k.id)
    && (exists d :: d in verb.world.domains && d.id == q.domain && d.user == q.user && d.status == "verified"
                    && d.name == AfterLastAt(q.from))
    && SentBy(before, q.from) && Named(before, q.to)
    && q.subject == FieldValue(SplitLF(q.raw), "Subject")
  }

  lemma {:induction false} LatestIs(verbs: seq<Verb>) returns (j: nat)
    ensures LatestAuth(verbs).Some? ==> InForce(verbs, j, LatestAuth(verbs).value)
    ensures LatestAuth(verbs).None? ==> forall i :: 0 <= i < |verbs| ==> Credential(verbs[i]).None?
  {
    j := 0;
    if verbs != [] {
      var n := |verbs| - 1;
      CredentialIs(verbs[n]);
      if Credential(verbs[n]).Some? {
        j := n;
      } else {
        j := LatestIs(verbs[..n]);
        assert forall i :: 0 <= i < n ==> verbs[..n][i] == verbs[i];
      }
    }
  }

  lemma HeededIs(verbs: seq<Verb>, j: nat)
    requires j <= |verbs|
    ensures LatestAuth(verbs[..j]).Some? <==> Heeded(verbs, j)
  {
    var i := LatestIs(verbs[..j]);
    if LatestAuth(verbs[..j]).Some? { assert Establishes(verbs[i], LatestAuth(verbs[..j]).value); }
    if i, k :| 0 <= i < j && i < |verbs| && Establishes(verbs[i], k) {
      CredentialIs(verbs[i]);
      assert verbs[..j][i] == verbs[i];
    }
  }

  lemma {:induction false} RecipientNamed(verbs: seq<Verb>, start: nat, to: string) returns (j: nat)
    requires start <= |verbs| && to in RecipientsFrom(verbs, start)
    ensures start <= j < |verbs| && verbs[j] == Rcpt(to) && Heeded(verbs, j)
    decreases |verbs|
  {
    var n := |verbs| - 1;
    if verbs[n] == Rcpt(to) && LatestAuth(verbs[..n]).Some? {
      j := n;
      HeededIs(verbs, n);
    } else {
      j := RecipientNamed(verbs[..n], start, to);
      HeededShorter(verbs, n, j);
    }
  }

  lemma HeededShorter(verbs: seq<Verb>, n: nat, j: nat)
    requires j <= n <= |verbs|
    ensures Heeded(verbs[..n], j) <==> Heeded(verbs, j)
  {
    assert verbs[..n][..j] == verbs[..j];
    HeededIs(verbs, j);
    HeededIs(verbs[..n], j);
  }

  /** The sender is that of the last accepted Mail from start on, and before any accepted one it is empty. */
  lemma {:induction false} SenderIs(verbs: seq<Verb>, start: nat) returns (j: nat)
    requires start <= |verbs|
    ensures start <= j <= |verbs|
    ensures j < |verbs| ==> verbs[j] == Verb.Mail(SenderFrom(verbs, start)) && Heeded(verbs, j)
    ensures j == |verbs| ==> SenderFrom(verbs, start) == ""
    ensures forall l :: (if j < |verbs| then j + 1 else start) <= l < |verbs| && verbs[l].Mail? ==> !Heeded(verbs, l)
    decreases |verbs|
  {
    j := start;
    if start < |verbs| {
      var n := |verbs| - 1;
      HeededIs(verbs, n);
      if verbs[n].Mail? && LatestAuth(verbs[..n]).Some? {
        j := n;
      } else {
        var i := SenderIs(verbs[..n], start);
        j := if i < n then i else |verbs|;
        forall l | 0 <= l <= n ensures Heeded(verbs[..n], l) <==> Heeded(verbs, l) { HeededShorter(verbs, n, l); }
        assert forall l :: 0 <= l < n ==> verbs[..n][l] == verbs[l];
      }
    }
  }

  lemma HeededLater(verbs: seq<Verb>, j: nat, l: nat)
    requires Heeded(verbs, j) && j <= l
    ensures Heeded(verbs, l)
  {
  }

  /** What the session holds is what its history says, spelled out. */
  lemma HistorySpelled(verbs: seq<Verb>)
    ensures SentBy(verbs, Sender(verbs)) && forall to :: to in Recipients(verbs) ==> Named(verbs, to)
  {
    var start := TransactionStart(verbs);
    var j := SenderIs(verbs, start);
    if j < |verbs| {
      forall l | j < l < |verbs| ensures !verbs[l].Mail? {
        if verbs[l].Mail? { HeededLater(verbs, j, l); }
      }
      assert verbs[j] == Verb.Mail(Sender(verbs)) && NoResetAfter(verbs, j);
    } else {
      forall i | 0 <= i < |verbs| && verbs[i].Mail? && Heeded(verbs, i) ensures !NoResetAfter(verbs, i) {
        assert i < start && verbs[start - 1].Reset?;
      }
    }
    forall to | to in Recipients(verbs) ensures Named(verbs, to) {
      var i := RecipientNamed(verbs, start, to);
      assert NoResetAfter(verbs, i);
    }
  }

  lemma OutputCarries(s: Session, verb: Verb, q: Queued)
    requires q in Output(s, verb)
    ensures verb.Data? && s.authenticated && verb.data == Some(q.raw)
    ensures q.user == s.user && q.key == s.key && q.from == s.from && q.to in s.to
    ensures q.subject == Subject(q.raw)
    ensures var d := FindDomain(verb.world.domains, AfterLastAt(s.from), s.user); d.Some? && d.value.id == q.domain
  {
  }

  lemma OutputAuthorised(before: seq<Verb>, verb: Verb, q: Queued)
    requires q in Output(After(before), verb)
    ensures Authorised(q, before, verb)
  {
    var s := After(before);
    SessionIsHistory(before);
    HistorySpelled(before);
    var j := LatestIs(before);
    assert InForce(before, j, LatestAuth(before).value);
    OutputCarries(s, verb, q);
    var d := FindDomain(verb.world.domains, AfterLastAt(s.from), s.user);
    assert d.value in verb.world.domains;
  }

  lemma OutboxSplits(verbs: seq<Verb>, q: Queued)
    requires q in Outbox(verbs)
    ensures verbs != []
    ensures q in Outbox(verbs[..|verbs| - 1]) || q in Output(After(verbs[..|verbs| - 1]), verbs[|verbs| - 1])
  {
  }

  /** Session safety: over every sequence of verbs, each queued message is authorised by the verbs before it. */
  lemma {:induction false} EveryQueuedIsAuthorised(verbs: seq<Verb>, q: Queued) returns (k: nat)
    requires q in Outbox(verbs)
    ensures k < |verbs| && Authorised(q, verbs[..k], verbs[k])
  {
    OutboxSplits(verbs, q);
    var n := |verbs| - 1;
    if q in Outbox(verbs[..n]) {
      k := EveryQueuedIsAuthorised(verbs[..n], q);
      assert verbs[..n][..k] == verbs[..k];
    } else {
      OutputAuthorised(verbs[..n], verbs[n], q);
      k := n;
    }
  }

  /** The entry under which a Data verb may queue, if the verb gets that far. */
  function Backing(before: seq<Verb>, w: World): Option<Domain> {
    match LatestAuth(before)
    case None => None
    case Some(k) => FindDomain(w.domains, AfterLastAt(Sender(before)), k.user)
  }

  lemma DataKeepsTransaction(before: seq<Verb>, verb: Verb)
    requires verb.Data?
    ensures var verbs := before + [verb];
            Recipients(verbs) == Recipients(before) && Sender(verbs) == Sender(before) && LatestAuth(verbs) == LatestAuth(before)
  {
    var verbs := before + [verb];
    assert verbs[..|verbs| - 1] == before;
    StartOfInit(verbs);
  }

  lemma OutputShape(s: Session, w: World, data: string, failing: Option<nat>)
    ensures var added := Output(s, Data(w, Some(data), failing));
            var d := FindDomain(w.domains, AfterLastAt(s.from), s.user);
            && (!s.authenticated || d.None? ==> added == [])
            && (s.authenticated && d.Some? ==> |added| == Stored(s.to, failing))
            && |added| <= |s.to|
            && forall i :: 0 <= i < |added| ==> added[i].to == s.to[i]
  {
  }

  /**
    One Data verb queues one message for each recipient since the last Reset, in order, and a prefix
    of them exactly if an insert fails; nothing without a credential and a verified domain of its
    owner.  It leaves the recipients in place, so a repeated Data queues them again.
    */
  lemma {:induction false} DataQueuesRecipients(before: seq<Verb>, w: World, data: string, failing: Option<nat>)
    returns (added: seq<Queued>)
    ensures var verbs := before + [Data(w, Some(data), failing)];
            && Outbox(verbs) == Outbox(before) + added
            && Recipients(verbs) == Recipients(before)
    ensures Backing(before, w).None? ==> added == []
    ensures Backing(before, w).Some? ==>
              |added| == if failing.Some? && failing.value < |Recipients(before)| then failing.value else |Recipients(before)|
    ensures |added| <= |Recipients(before)| && forall i :: 0 <= i < |added| ==> added[i].to == Recipients(before)[i]
  {
    var verbs := before + [Data(w, Some(data), failing)];
    assert verbs[..|verbs| - 1] == before;
    SessionIsHistory(before);
    added := Output(After(before), Data(w, Some(data), failing));
    OutputShape(After(before), w, data, failing);
    DataKeepsTransaction(before, Data(w, Some(data), failing));
  }
}
