/**
  One-click DNS setup against DNS verification.  A zone is the list of its records, a record's
  position stands for its id, and a lookup sees the zone as the provider holds it.
  */
module Domains {
  import opened Wrappers

  datatype Record = Record(kind: string, name: string, content: string, ttl: int, proxied: bool)

  /** How a write call ends: accepted; reported as failed though applied; failed without effect. */
  datatype Write = Done | Applied | Ignored

  /** What the provider answers for one record: whether the lookup worked, and how the write ended. */
  datatype Call = Call(found: bool, write: Write)

  datatype Report = Updated(name: string) | Created(name: string)
  datatype Problem = NoZone | NotChecked(name: string) | NotUpdated(name: string) | NotCreated(name: string)

  datatype Config = Config(serverIP: string, hostname: string)

  const TXT := "TXT"

  // Finding the zone

  function Join(labels: seq<string>): string {
    if labels == [] then "" else if |labels| == 1 then labels[0] else labels[0] + "." + Join(labels[1..])
  }

  ghost predicate Known(labels: seq<string>, answer: string -> Option<string>) {
    exists i :: 0 <= i < |labels| - 1 && answer(Join(labels[i..])).Some?
  }

  /** The domain itself, then each parent with at least two labels; the first the provider knows. */
  method FindZone(labels: seq<string>, answer: string -> Option<string>) returns (zone: Option<string>)
    ensures match zone
            case None => forall i :: 0 <= i < |labels| - 1 ==> answer(Join(labels[i..])).None?
            case Some(z) => exists i :: 0 <= i < |labels| - 1 && answer(Join(labels[i..])) == Some(z)
                                        && forall j :: 0 <= j < i ==> answer(Join(labels[j..])).None?
  {
    for i := 0 to if labels == [] then 0 else |labels| - 1
      invariant forall j :: 0 <= j < i ==> answer(Join(labels[j..])).None?
    {
      zone := answer(Join(labels[i..]));
      if zone.Some? {
        return;
      }
    }
    zone := None;
  }

  /** Every candidate is the domain or a parent of it, so a zone found by name covers the domain. */
  lemma {:induction false} CandidateIsParent(labels: seq<string>, i: nat)
    requires 0 < i < |labels|
    ensures Join(labels) == Join(labels[..i]) + "." + Join(labels[i..])
  {
    if i == 1 {
      assert labels[..1] == [labels[0]];
    } else {
      CandidateIsParent(labels[1..], i - 1);
      assert labels[1..][..i - 1] == labels[..i][1..] && labels[1..][i - 1..] == labels[i..];
      assert labels[..i][0] == labels[0];
    }
  }

  // Setting up the records

  function DKIMName(domain: string, selector: string): string { selector + "._domainkey." + domain }

  function DMARCName(domain: string): string { "_dmarc." + domain }

  function DKIMText(key: string): string { "v=DKIM1; k=rsa; p=" + key }

  function SPFText(ip: string): string { "v=spf1 ip4:" + ip + (" include:" + "delivery.lisaos.dev" + " ~all") }

  function DMARCText(domain: string): string { "v=DMARC1" + "; p=quarantine; rua=mailto:dmarc@" + domain }

  function Text(name: string, content: string): Record { Record(TXT, name, content, 3600, false) }

  function Wanted(domain: string, selector: string, key: string, ip: string): (recs: seq<Record>)
    ensures |recs| == 3
  {
    [Text(DKIMName(domain, selector), DKIMText(key)), Text(domain, SPFText(ip)), Text(DMARCName(domain), DMARCText(domain))]
  }

  predicate SameSlot(a: Record, b: Record) { a.kind == b.kind && a.name == b.name }

  /** The first record of the kind and name of rec: the one an upsert overwrites. */
  function Slot(zone: seq<Record>, rec: Record): (i: Option<nat>)
    ensures i.None? ==> forall k :: 0 <= k < |zone| ==> !SameSlot(zone[k], rec)
    ensures i.Some? ==> i.value < |zone| && SameSlot(zone[i.value], rec)
                        && forall k :: 0 <= k < i.value ==> !SameSlot(zone[k], rec)
  {
    if zone == [] then None
    else if SameSlot(zone[0], rec) then Some(0)
    else match Slot(zone[1..], rec) case None => None case Some(k) => Some(k + 1)
  }

  function Upsert(zone: seq<Record>, rec: Record): seq<Record> {
    match Slot(zone, rec) case None => zone + [rec] case Some(i) => zone[i := rec]
  }

  function ZoneAfter(zone: seq<Record>, rec: Record, call: Call): seq<Record> {
    if call.found && !call.write.Ignored? then Upsert(zone, rec) else zone
  }

  function SetupZone(zone: seq<Record>, recs: seq<Record>, calls: seq<Call>): seq<Record>
    requires |calls| == |recs|
  {
    if recs == [] then zone
    else
      var n := |recs| - 1;
      ZoneAfter(SetupZone(zone, recs[..n], calls[..n]), recs[n], calls[n])
  }

  lemma SetupStep(zone: seq<Record>, recs: seq<Record>, calls: seq<Call>, i: nat)
    requires |calls| == |recs| && i < |recs|
    ensures SetupZone(zone, recs[..i + 1], calls[..i + 1])
         == ZoneAfter(SetupZone(zone, recs[..i], calls[..i]), recs[i], calls[i])
  {
    assert recs[..i + 1][..i] == recs[..i] && calls[..i + 1][..i] == calls[..i];
  }

  predicate Succeeded(calls: seq<Call>) { forall i :: 0 <= i < |calls| ==> calls[i] == Call(true, Done) }

  /** Some record already has the kind and name of rec. */
  predicate Taken(zone: seq<Record>, rec: Record) {
    exists k :: 0 <= k < |zone| && zone[k].kind == rec.kind && zone[k].name == rec.name
  }

  function ReportOf(zone: seq<Record>, rec: Record): Report {
    if Taken(zone, rec) then Updated(rec.name) else Created(rec.name)
  }

  function ProblemOf(zone: seq<Record>, rec: Record, call: Call): Problem {
    if !call.found then NotChecked(rec.name) else if Taken(zone, rec) then NotUpdated(rec.name) else NotCreated(rec.name)
  }

  /**
    The reports and errors of the first n rounds: each round adds a report exactly if its lookup and
    its write succeed, and otherwise the error that says which of them failed.
    */
  predicate Told(zone: seq<Record>, recs: seq<Record>, calls: seq<Call>, n: nat, created: seq<Report>, errors: seq<Problem>)
    requires n <= |recs| == |calls|
    decreases n
  {
    if n == 0 then created == [] && errors == []
    else
      var m, c, e := n - 1, |created| - 1, |errors| - 1;
      var before := SetupZone(zone, recs[..m], calls[..m]);
      if calls[m] == Call(true, Done) then
        c >= 0 && created[c] == ReportOf(before, recs[m]) && Told(zone, recs, calls, m, created[..c], errors)
      else
        e >= 0 && errors[e] == ProblemOf(before, recs[m], calls[m]) && Told(zone, recs, calls, m, created, errors[..e])
  }

  /** Round i succeeded, and the report says whether a record of that kind and name stood there before. */
  predicate Reported(zone: seq<Record>, recs: seq<Record>, calls: seq<Call>, i: nat, r: Report)
    requires i < |recs| == |calls|
  {
    var before := SetupZone(zone, recs[..i], calls[..i]);
    && calls[i] == Call(true, Done) && r.name == recs[i].name
    && (r.Updated? <==> exists k :: 0 <= k < |before| && before[k].kind == recs[i].kind && before[k].name == recs[i].name)
  }

  /** Round i failed, and the error says at what. */
  predicate Explained(zone: seq<Record>, recs: seq<Record>, calls: seq<Call>, i: nat, e: Problem)
    requires i < |recs| == |calls|
  {
    var before := SetupZone(zone, recs[..i], calls[..i]);
    var taken := exists k :: 0 <= k < |before| && before[k].kind == recs[i].kind && before[k].name == recs[i].name;
    match e
    case NoZone => false
    case NotChecked(name) => name == recs[i].name && !calls[i].found
    case NotUpdated(name) => name == recs[i].name && calls[i].found && calls[i].write != Done && taken
    case NotCreated(name) => name == recs[i].name && calls[i].found && calls[i].write != Done && !taken
  }

  lemma {:induction false} ToldSpelled(zone: seq<Record>, recs: seq<Record>, calls: seq<Call>, n: nat,
                                       created: seq<Report>, errors: seq<Problem>)
    requires n <= |recs| == |calls| && Told(zone, recs, calls, n, created, errors)
    ensures forall r :: r in created ==> exists i :: 0 <= i < |recs| && Reported(zone, recs, calls, i, r)
    ensures forall e :: e in errors ==> exists i :: 0 <= i < |recs| && Explained(zone, recs, calls, i, e)
    decreases n
  {
    if n > 0 {
      var m, c, e := n - 1, |created| - 1, |errors| - 1;
      if calls[m] == Call(true, Done) {
        ToldSpelled(zone, recs, calls, m, created[..c], errors);
        assert Reported(zone, recs, calls, m, created[c]);
        assert created == created[..c] + [created[c]];
      } else {
        ToldSpelled(zone, recs, calls, m, created, errors[..e]);
        assert Explained(zone, recs, calls, m, errors[e]);
        assert errors == errors[..e] + [errors[e]];
      }
    }
  }

  lemma SucceededMore(calls: seq<Call>, i: nat)
    requires i < |calls|
    ensures Succeeded(calls[..i + 1]) <==> Succeeded(calls[..i]) && calls[i] == Call(true, Done)
  {
    assert calls[..i + 1][i] == calls[i] && forall k :: 0 <= k < i ==> calls[..i + 1][k] == calls[..i][k];
  }

  lemma Appended<T>(xs: seq<T>, x: T)
    ensures (xs + [x])[..|xs + [x]| - 1] == xs && (xs + [x])[|xs + [x]| - 1] == x
  {
  }

  lemma ReportMore(zone: seq<Record>, recs: seq<Record>, calls: seq<Call>, i: nat, created: seq<Report>, errors: seq<Problem>,
                   r: Report)
    requires i < |recs| == |calls| && Told(zone, recs, calls, i, created, errors) && calls[i] == Call(true, Done)
    requires r == ReportOf(SetupZone(zone, recs[..i], calls[..i]), recs[i])
    ensures Told(zone, recs, calls, i + 1, created + [r], errors)
  {
    Appended(created, r);
  }

  lemma ProblemMore(zone: seq<Record>, recs: seq<Record>, calls: seq<Call>, i: nat, created: seq<Report>, errors: seq<Problem>,
                    e: Problem)
    requires i < |recs| == |calls| && Told(zone, recs, calls, i, created, errors) && calls[i] != Call(true, Done)
    requires e == ProblemOf(SetupZone(zone, recs[..i], calls[..i]), recs[i], calls[i])
    ensures Told(zone, recs, calls, i + 1, created, errors + [e])
  {
    Appended(errors, e);
  }

  /** Where the loop stands after n rounds. */
  predicate Rounds(zone: seq<Record>, recs: seq<Record>, calls: seq<Call>, n: nat,
                   records: seq<Record>, created: seq<Report>, errors: seq<Problem>)
    requires n <= |recs| == |calls|
  {
    && records == SetupZone(zone, recs[..n], calls[..n])
    && |created| + |errors| == n && (errors == [] <==> Succeeded(calls[..n]))
    && Told(zone, recs, calls, n, created, errors)
  }

  /** What one round does to the reports and the errors. */
  predicate Answers(zone: seq<Record>, rec: Record, call: Call, created: seq<Report>, errors: seq<Problem>,
                    created': seq<Report>, errors': seq<Problem>)
  {
    if call == Call(true, Done) then created' == created + [ReportOf(zone, rec)] && errors' == errors
    else created' == created && errors' == errors + [ProblemOf(zone, rec, call)]
  }

  lemma RoundMore(zone: seq<Record>, recs: seq<Record>, calls: seq<Call>, i: nat,
                  records: seq<Record>, created: seq<Report>, errors: seq<Problem>,
                  records': seq<Record>, created': seq<Report>, errors': seq<Problem>)
    requires i < |recs| == |calls| && Rounds(zone, recs, calls, i, records, created, errors)
    requires records' == ZoneAfter(records, recs[i], calls[i])
    requires Answers(records, recs[i], calls[i], created, errors, created', errors')
    ensures Rounds(zone, recs, calls, i + 1, records', created', errors')
  {
    SetupStep(zone, recs, calls, i);
    SucceededMore(calls, i);
    if calls[i] == Call(true, Done) {
      ReportMore(zone, recs, calls, i, created, errors, ReportOf(records, recs[i]));
    } else {
      ProblemMore(zone, recs, calls, i, created, errors, ProblemOf(records, recs[i], calls[i]));
    }
  }

  class Zone {
    var records: seq<Record>

    constructor (records: seq<Record>)
      ensures this.records == records
    {
      this.records := records;
    }

    /** The loop over the three records, once the zone is known. */
    method Upserts(recs: seq<Record>, calls: seq<Call>) returns (created: seq<Report>, errors: seq<Problem>)
      requires |calls| == |recs|
      modifies this
      ensures records == SetupZone(old(records), recs, calls)
      ensures |created| + |errors| == |recs|
      ensures errors == [] <==> Succeeded(calls)
      ensures Told(old(records), recs, calls, |recs|, created, errors)
      ensures forall r :: r in created ==> exists i :: 0 <= i < |recs| && Reported(old(records), recs, calls, i, r)
      ensures forall e :: e in errors ==> exists i :: 0 <= i < |recs| && Explained(old(records), recs, calls, i, e)
    {
      created, errors := [], [];
      ghost var before := records;
      for i := 0 to |recs|
        invariant Rounds(before, recs, calls, i, records, created, errors)
      {
        ghost var records0, created0, errors0 := records, created, errors;
        created, errors := Write(recs[i], calls[i], created, errors);
        RoundMore(before, recs, calls, i, records0, created0, errors0, records, created, errors);
      }
      assert recs[..|recs|] == recs && calls[..|calls|] == calls;
      ToldSpelled(before, recs, calls, |recs|, created, errors);
    }

    /** One round of the loop. */
    method Write(rec: Record, call: Call, created: seq<Report>, errors: seq<Problem>)
      returns (created': seq<Report>, errors': seq<Problem>)
      modifies this
      ensures records == ZoneAfter(old(records), rec, call)
      ensures Answers(old(records), rec, call, created, errors, created', errors')
    {
      created', errors' := created, errors;
      if !call.found {
        errors' := errors + [NotChecked(rec.name)];
        return;
      }
      var existing := Slot(records, rec);
      if existing.Some? {
        if !call.write.Ignored? {
          records := records[existing.value := rec];
        }
        if call.write.Done? {
          created' := created + [Updated(rec.name)];
        } else {
          errors' := errors + [NotUpdated(rec.name)];
        }
      } else {
        if !call.write.Ignored? {
          records := records + [rec];
        }
        if call.write.Done? {
          created' := created + [Created(rec.name)];
        } else {
          errors' := errors + [NotCreated(rec.name)];
        }
      }
    }

    /** Reports plus errors number three once the zone is found, whatever the calls do. */
    method SetupDomainRecords(labels: seq<string>, answer: string -> Option<string>,
                              selector: string, key: string, ip: string, calls: seq<Call>)
      returns (created: seq<Report>, errors: seq<Problem>)
      requires |calls| == 3
      modifies this
      ensures Known(labels, answer) ==>
                && records == SetupZone(old(records), Wanted(Join(labels), selector, key, ip), calls)
                && |created| + |errors| == 3
      ensures !Known(labels, answer) ==> records == old(records) && created == [] && errors == [NoZone]
      ensures errors == [] <==> Known(labels, answer) && Succeeded(calls)
      ensures errors == [] ==> Published(records, Join(labels), selector, key, ip)
    {
      var zone := FindZone(labels, answer);
      if zone.None? {
        return [], [NoZone];
      }
      created, errors := Upserts(Wanted(Join(labels), selector, key, ip), calls);
      if errors == [] {
        SetupPublishes(old(records), Join(labels), selector, key, ip, calls);
      }
    }
  }

  /**
    The zone tells the world what it must: the whole key under the selector, who may send for the
    domain, and what to do with mail that fails and whom to tell.
    */
  predicate Published(zone: seq<Record>, domain: string, selector: string, key: string, ip: string) {
    && Record("TXT", selector + "._domainkey." + domain, "v=DKIM1; k=rsa; p=" + key, 3600, false) in zone
    && Record("TXT", domain, "v=spf1 ip4:" + ip + (" include:" + "delivery.lisaos.dev" + " ~all"), 3600, false) in zone
    && Record("TXT", "_dmarc." + domain, "v=DMARC1" + "; p=quarantine; rua=mailto:dmarc@" + domain, 3600, false) in zone
  }

  /** An error-free setup, in whatever zone it started, publishes the three records. */
  lemma SetupPublishes(zone: seq<Record>, domain: string, selector: string, key: string, ip: string, calls: seq<Call>)
    requires |calls| == 3 && Succeeded(calls)
    ensures Published(SetupZone(zone, Wanted(domain, selector, key, ip), calls), domain, selector, key, ip)
  {
    var recs := Wanted(domain, selector, key, ip);
    NamesDiffer(domain, selector, key, ip);
    SetupHolds(zone, recs, calls, 0);
    SetupHolds(zone, recs, calls, 1);
    SetupHolds(zone, recs, calls, 2);
  }

  // What a run leaves in the zone

  /** The three names are pairwise distinct, for every domain and selector. */
  lemma NamesDiffer(domain: string, selector: string, key: string, ip: string)
    ensures var recs := Wanted(domain, selector, key, ip);
            forall i, j :: 0 <= i < j < 3 ==> !SameSlot(recs[i], recs[j])
  {
    assert |DKIMName(domain, selector)| == |selector| + 12 + |domain|;
    assert |DMARCName(domain)| == 7 + |domain|;
  }

  ghost predicate Apart(recs: seq<Record>) {
    forall i, j :: 0 <= i < j < |recs| ==> !SameSlot(recs[i], recs[j])
  }

  /** An upsert puts the record in its slot and leaves every other slot where it was. */
  lemma UpsertSlots(zone: seq<Record>, rec: Record, other: Record)
    ensures var z := Upsert(zone, rec);
            && Slot(z, rec).Some? && z[Slot(z, rec).value] == rec
            && (!SameSlot(rec, other) && Slot(zone, other).Some? ==>
                  Slot(z, other) == Slot(zone, other) && z[Slot(z, other).value] == zone[Slot(zone, other).value])
            && (!SameSlot(rec, other) && Slot(zone, other).None? ==> Slot(z, other).None?)
  {
    var z := Upsert(zone, rec);
    match Slot(zone, rec)
    case None => assert z[|zone|] == rec && forall k :: 0 <= k < |zone| ==> z[k] == zone[k];
    case Some(i) => assert z[i] == rec && forall k :: 0 <= k < |zone| && k != i ==> z[k] == zone[k];
  }

  ghost predicate Holds(zone: seq<Record>, rec: Record) {
    Slot(zone, rec).Some? && zone[Slot(zone, rec).value] == rec
  }

  /** After an error-free run every wanted record stands in its slot: no upsert overwrites another. */
  lemma {:induction false} SetupHolds(zone: seq<Record>, recs: seq<Record>, calls: seq<Call>, i: nat)
    requires |calls| == |recs| && Apart(recs) && Succeeded(calls) && i < |recs|
    ensures Holds(SetupZone(zone, recs, calls), recs[i])
  {
    var n := |recs| - 1;
    var before := SetupZone(zone, recs[..n], calls[..n]);
    UpsertSlots(before, recs[n], recs[i]);
    if i < n {
      SetupHolds(zone, recs[..n], calls[..n], i);
    }
  }

  /** A run over a zone that already holds the records changes nothing. */
  lemma {:induction false} SetupSettles(zone: seq<Record>, recs: seq<Record>, calls: seq<Call>)
    requires |calls| == |recs| && forall i :: 0 <= i < |recs| ==> Holds(zone, recs[i])
    ensures SetupZone(zone, recs, calls) == zone
  {
    if recs != [] {
      var n := |recs| - 1;
      SetupSettles(zone, recs[..n], calls[..n]);
    }
  }

  /** A second run, whatever its calls do, finds every record in place and leaves the zone unchanged. */
  lemma SecondRunOnlyUpdates(zone: seq<Record>, domain: string, selector: string, key: string, ip: string,
                             first: seq<Call>, second: seq<Call>, i: nat)
    requires |first| == |second| == 3 && Succeeded(first) && i < 3
    ensures var recs := Wanted(domain, selector, key, ip);
            var z := SetupZone(zone, recs, first);
            && SetupZone(z, recs, second) == z
            && Slot(SetupZone(z, recs[..i], second[..i]), recs[i]).Some?
  {
    var recs := Wanted(domain, selector, key, ip);
    var z := SetupZone(zone, recs, first);
    NamesDiffer(domain, selector, key, ip);
    forall k | 0 <= k < 3 ensures Holds(z, recs[k]) { SetupHolds(zone, recs, first, k); }
    SetupSettles(z, recs, second);
    SetupSettles(z, recs[..i], second[..i]);
  }

  /** The slots an error-free run overwrites. */
  ghost predicate Overwritten(zone: seq<Record>, recs: seq<Record>, i: nat) {
    exists k :: 0 <= k < |recs| && Slot(zone, recs[k]) == Some(i)
  }

  lemma {:induction false} SlotsStay(zone: seq<Record>, recs: seq<Record>, calls: seq<Call>, other: Record)
    requires |calls| == |recs| && forall k :: 0 <= k < |recs| ==> !SameSlot(recs[k], other)
    ensures Slot(SetupZone(zone, recs, calls), other) == Slot(zone, other)
  {
    if recs != [] {
      var n := |recs| - 1;
      SlotsStay(zone, recs[..n], calls[..n], other);
      UpsertSlots(SetupZone(zone, recs[..n], calls[..n]), recs[n], other);
    }
  }

  /**
    What a run keeps, exactly: in an error-free run a record of the zone survives in place unless it
    is the first of its slot among the three, and then it becomes the wanted record.  In particular
    an unrelated TXT record at the domain itself is lost if it comes first.
    */
  lemma {:induction false} RunKeepsTheRest(zone: seq<Record>, recs: seq<Record>, calls: seq<Call>, i: nat)
    requires |calls| == |recs| && Apart(recs) && Succeeded(calls) && i < |zone|
    ensures var z := SetupZone(zone, recs, calls);
            && i < |z|
            && (!Overwritten(zone, recs, i) ==> z[i] == zone[i])
            && (forall k :: 0 <= k < |recs| && Slot(zone, recs[k]) == Some(i) ==> z[i] == recs[k])
  {
    if recs != [] {
      var n := |recs| - 1;
      var before := SetupZone(zone, recs[..n], calls[..n]);
      RunKeepsTheRest(zone, recs[..n], calls[..n], i);
      SlotsStay(zone, recs[..n], calls[..n], recs[n]);
      assert !Overwritten(zone, recs, i) ==> !Overwritten(zone, recs[..n], i) && Slot(zone, recs[n]) != Some(i) by {
        if !Overwritten(zone, recs, i) {
          assert forall k :: 0 <= k < n ==> recs[..n][k] == recs[k];
        }
      }
      forall k | 0 <= k < |recs| && Slot(zone, recs[k]) == Some(i)
        ensures SetupZone(zone, recs, calls)[i] == recs[k]
      {
        if k < n {
          assert recs[..n][k] == recs[k] && before[i] == recs[k];
        }
      }
    }
  }

  // Verification

  predicate Contains(s: string, p: string) { exists i :: 0 <= i <= |s| && p <= s[i..] }

  /** The contents of the TXT records at a name. */
  function Lookup(zone: seq<Record>, name: string): seq<string> {
    if zone == [] then []
    else (if zone[0].kind == TXT && zone[0].name == name then [zone[0].content] else []) + Lookup(zone[1..], name)
  }

  predicate IsSPF(txt: string, cfg: Config) {
    Contains(txt, "v=spf1") && (Contains(txt, cfg.serverIP) || Contains(txt, cfg.hostname))
  }

  predicate AnyContains(txts: seq<string>, p: string) { exists i :: 0 <= i < |txts| && Contains(txts[i], p) }

  predicate AnySPF(txts: seq<string>, cfg: Config) { exists i :: 0 <= i < |txts| && IsSPF(txts[i], cfg) }

  // The same tests, by what stands in the zone

  ghost predicate Within(p: string, s: string) { exists before, after :: s == before + p + after }

  lemma ContainsIs(s: string, p: string)
    ensures Contains(s, p) <==> Within(p, s)
  {
    if Contains(s, p) {
      var i :| 0 <= i <= |s| && p <= s[i..];
      assert s == s[..i] + p + s[i + |p|..];
    }
    if before, after :| s == before + p + after {
      assert s[|before|..] == p + after;
    }
  }

  predicate HasText(zone: seq<Record>, name: string) {
    exists i :: 0 <= i < |zone| && zone[i].kind == "TXT" && zone[i].name == name
  }

  /** Some text at the name holds p. */
  ghost predicate Shows(zone: seq<Record>, name: string, p: string) {
    exists i :: 0 <= i < |zone| && zone[i].kind == "TXT" && zone[i].name == name && Within(p, zone[i].content)
  }

  /** Some text at the name is a policy that names the server. */
  ghost predicate Permits(zone: seq<Record>, name: string, cfg: Config) {
    exists i :: 0 <= i < |zone| && zone[i].kind == "TXT" && zone[i].name == name
                && Within("v=spf1", zone[i].content)
                && (Within(cfg.serverIP, zone[i].content) || Within(cfg.hostname, zone[i].content))
  }

  lemma {:induction false} LookupIs(zone: seq<Record>, name: string)
    ensures forall c :: c in Lookup(zone, name)
                        <==> exists i :: 0 <= i < |zone| && zone[i].kind == "TXT" && zone[i].name == name && zone[i].content == c
    ensures Lookup(zone, name) != [] <==> HasText(zone, name)
  {
    if zone != [] {
      LookupIs(zone[1..], name);
      var own := zone[0].kind == "TXT" && zone[0].name == name;
      forall c
        ensures c in Lookup(zone, name)
                <==> exists i :: 0 <= i < |zone| && zone[i].kind == "TXT" && zone[i].name == name && zone[i].content == c
      {
        if c in Lookup(zone[1..], name) {
          var i :| 0 <= i < |zone[1..]| && zone[1..][i].kind == "TXT" && zone[1..][i].name == name && zone[1..][i].content == c;
          assert zone[i + 1] == zone[1..][i];
        }
        if i :| 0 <= i < |zone| && zone[i].kind == "TXT" && zone[i].name == name && zone[i].content == c {
          if i > 0 { assert zone[1..][i - 1] == zone[i]; }
        }
      }
      if HasText(zone, name) && !own {
        var i :| 0 <= i < |zone| && zone[i].kind == "TXT" && zone[i].name == name;
        assert zone[1..][i - 1] == zone[i];
      }
      if HasText(zone[1..], name) {
        var i :| 0 <= i < |zone[1..]| && zone[1..][i].kind == "TXT" && zone[1..][i].name == name;
        assert zone[i + 1] == zone[1..][i];
      }
    }
  }

  lemma ShowsIs(zone: seq<Record>, name: string, p: string)
    ensures AnyContains(Lookup(zone, name), p) <==> Shows(zone, name, p)
  {
    var txts := Lookup(zone, name);
    LookupIs(zone, name);
    if AnyContains(txts, p) {
      var k :| 0 <= k < |txts| && Contains(txts[k], p);
      ContainsIs(txts[k], p);
      assert txts[k] in txts;
    }
    if Shows(zone, name, p) {
      var i :| 0 <= i < |zone| && zone[i].kind == "TXT" && zone[i].name == name && Within(p, zone[i].content);
      ContainsIs(zone[i].content, p);
      assert zone[i].content in txts;
    }
  }

  lemma PermitsIs(zone: seq<Record>, name: string, cfg: Config)
    ensures AnySPF(Lookup(zone, name), cfg) <==> Permits(zone, name, cfg)
  {
    var txts := Lookup(zone, name);
    LookupIs(zone, name);
    if AnySPF(txts, cfg) {
      var k :| 0 <= k < |txts| && IsSPF(txts[k], cfg);
      PolicyIs(txts[k], cfg);
      assert txts[k] in txts;
    }
    if Permits(zone, name, cfg) {
      var i :| 0 <= i < |zone| && zone[i].kind == "TXT" && zone[i].name == name && Within("v=spf1", zone[i].content)
               && (Within(cfg.serverIP, zone[i].content) || Within(cfg.hostname, zone[i].content));
      PolicyIs(zone[i].content, cfg);
      assert zone[i].content in txts;
    }
  }

  lemma PolicyIs(txt: string, cfg: Config)
    ensures IsSPF(txt, cfg) <==> Within("v=spf1", txt) && (Within(cfg.serverIP, txt) || Within(cfg.hostname, txt))
  {
    ContainsIs(txt, "v=spf1");
    ContainsIs(txt, cfg.serverIP);
    ContainsIs(txt, cfg.hostname);
  }

  /** The row of a sending domain. */
  class SendingDomain {
    const domain: string
    const selector: string
    const key: string
    var dkim: bool
    var spf: bool
    var dmarc: bool
    var verified: bool

    constructor (domain: string, selector: string, key: string)
      ensures this.domain == domain && this.selector == selector && this.key == key
      ensures !dkim && !spf && !dmarc && !verified
    {
      this.domain, this.selector, this.key := domain, selector, key;
      dkim, spf, dmarc, verified := false, false, false, false;
    }

    /**
      VerifyDomain.  Slicing a key of fewer than 40 characters panics, which aborts the request
      before anything is saved; it happens exactly if there is a TXT record to compare it with.
      */
    method Verify(zone: seq<Record>, cfg: Config) returns (panicked: bool)
      modifies this
      ensures panicked <==> |key| < 40 && HasText(zone, selector + "._domainkey." + domain)
      ensures panicked ==> unchanged(this)
      ensures !panicked ==>
                && dkim == (|key| >= 40 && Shows(zone, selector + "._domainkey." + domain, key[..40]))
                && spf == Permits(zone, domain, cfg)
                && dmarc == Shows(zone, "_dmarc." + domain, "v=DMARC1")
                && verified == (dkim && spf)
    {
      LookupIs(zone, DKIMName(domain, selector));
      if |key| >= 40 { ShowsIs(zone, DKIMName(domain, selector), key[..40]); }
      PermitsIs(zone, domain, cfg);
      ShowsIs(zone, DMARCName(domain), "v=DMARC1");
      var txts := Lookup(zone, DKIMName(domain, selector));
      if |key| < 40 {
        if txts != [] {
          return true;
        }
        dkim := false;
      } else {
        dkim := AnyText(txts, key[..40]);
      }
      spf := AnyPolicy(Lookup(zone, domain), cfg);
      dmarc := AnyText(Lookup(zone, DMARCName(domain)), "v=DMARC1");
      verified := dkim && spf;
      panicked := false;
    }

    /** The administrator's form, which compares as much of the key as there is. */
    method AdminVerify(zone: seq<Record>, cfg: Config)
      modifies this
      ensures dkim == Shows(zone, selector + "._domainkey." + domain, if |key| > 40 then key[..40] else key)
      ensures spf == Permits(zone, domain, cfg)
      ensures dmarc == Shows(zone, "_dmarc." + domain, "v=DMARC1")
      ensures verified == (dkim && spf)
    {
      ShowsIs(zone, DKIMName(domain, selector), if |key| > 40 then key[..40] else key);
      PermitsIs(zone, domain, cfg);
      ShowsIs(zone, DMARCName(domain), "v=DMARC1");
      dkim := AnyText(Lookup(zone, DKIMName(domain, selector)), if |key| > 40 then key[..40] else key);
      spf := AnyPolicy(Lookup(zone, domain), cfg);
      dmarc := AnyText(Lookup(zone, DMARCName(domain)), "v=DMARC1");
      verified := dkim && spf;
    }

    /**
      AutoSetupDNS: without errors it sets all flags and does not look at the zone.  The flags it
      sets are the ones AdminVerify, and for a key of 40 characters or more Verify, would find there.
      */
    method AutoSetup(z: Zone, labels: seq<string>, answer: string -> Option<string>, cfg: Config, calls: seq<Call>)
      returns (created: seq<Report>, errors: seq<Problem>)
      requires domain == Join(labels) && |calls| == 3
      modifies this, z
      ensures Known(labels, answer) ==>
                z.records == SetupZone(old(z.records), Wanted(domain, selector, key, cfg.serverIP), calls)
      ensures errors == [] <==> Known(labels, answer) && Succeeded(calls)
      ensures errors != [] ==> unchanged(this)
      ensures errors == [] ==> dkim && spf && dmarc && verified && Passes(z.records, domain, selector, key, cfg)
                               && Published(z.records, domain, selector, key, cfg.serverIP)
    {
      created, errors := z.SetupDomainRecords(labels, answer, selector, key, cfg.serverIP, calls);
      if errors == [] {
        ShortcutAgrees(old(z.records), domain, selector, key, cfg, calls);
        dkim, spf, dmarc, verified := true, true, true, true;
      }
    }
  }

  method AnyText(txts: seq<string>, p: string) returns (found: bool)
    ensures found == AnyContains(txts, p)
  {
    for i := 0 to |txts|
      invariant forall k :: 0 <= k < i ==> !Contains(txts[k], p)
    {
      if Contains(txts[i], p) {
        return true;
      }
    }
    found := false;
  }

  method AnyPolicy(txts: seq<string>, cfg: Config) returns (found: bool)
    ensures found == AnySPF(txts, cfg)
  {
    for i := 0 to |txts|
      invariant forall k :: 0 <= k < i ==> !IsSPF(txts[k], cfg)
    {
      if IsSPF(txts[i], cfg) {
        return true;
      }
    }
    found := false;
  }

  /** All three tests of verification succeed on the zone, on as much of the key as there is. */
  ghost predicate Passes(zone: seq<Record>, domain: string, selector: string, key: string, cfg: Config) {
    && Shows(zone, selector + "._domainkey." + domain, if |key| > 40 then key[..40] else key)
    && Permits(zone, domain, cfg)
    && Shows(zone, "_dmarc." + domain, "v=DMARC1")
  }

  lemma ContainsAt(before: string, p: string, after: string)
    ensures Contains(before + p + after, p)
  {
    assert (before + p + after)[|before|..] == p + after;
  }

  lemma {:induction false} LookupFinds(zone: seq<Record>, i: nat)
    requires i < |zone| && zone[i].kind == TXT
    ensures zone[i].content in Lookup(zone, zone[i].name)
  {
    if i > 0 { LookupFinds(zone[1..], i - 1); }
  }

  lemma HeldIsFound(zone: seq<Record>, rec: Record)
    requires Holds(zone, rec) && rec.kind == TXT
    ensures rec.content in Lookup(zone, rec.name)
  {
    LookupFinds(zone, Slot(zone, rec).value);
  }

  lemma PrefixPasses(tag: string, key: string, n: nat)
    requires n <= |key|
    ensures Contains(tag + key, key[..n])
  {
    ContainsAt(tag, key[..n], key[n..]);
    assert key[..n] + key[n..] == key;
    assert tag + key[..n] + key[n..] == tag + (key[..n] + key[n..]);
  }

  lemma DKIMPasses(key: string)
    ensures Contains(DKIMText(key), if |key| > 40 then key[..40] else key)
  {
    PrefixPasses("v=DKIM1; k=rsa; p=", key, if |key| > 40 then 40 else |key|);
    assert key[..|key|] == key;
  }

  lemma OpensWith(a: string, b: string, rest: string)
    ensures Contains((a + b) + rest, a)
  {
    ContainsAt("", a, b + rest);
    assert "" + a + (b + rest) == (a + b) + rest;
  }

  lemma PolicyOpens()
    ensures "v=spf1 ip4:" == "v=spf1" + " ip4:"
  {
  }

  lemma PolicyPasses(ip: string, rest: string, cfg: Config)
    requires cfg.serverIP == ip
    ensures IsSPF("v=spf1 ip4:" + ip + rest, cfg)
  {
    ContainsAt("v=spf1 ip4:", ip, rest);
    PolicyOpens();
    OpensWith("v=spf1", " ip4:", ip + rest);
    assert "v=spf1 ip4:" + ip + rest == "v=spf1 ip4:" + (ip + rest);
  }

  lemma DMARCPasses(domain: string)
    ensures Contains(DMARCText(domain), "v=DMARC1")
  {
    ContainsAt("", "v=DMARC1", "; p=quarantine; rua=mailto:dmarc@" + domain);
    assert "" + "v=DMARC1" + ("; p=quarantine; rua=mailto:dmarc@" + domain) == DMARCText(domain);
  }

  /** A zone in which some policy text of the right form stands beside the other two records passes. */
  lemma HeldPasses(zone: seq<Record>, domain: string, selector: string, key: string, cfg: Config, policy: string)
    requires DKIMText(key) in Lookup(zone, DKIMName(domain, selector))
    requires policy in Lookup(zone, domain) && IsSPF(policy, cfg)
    requires DMARCText(domain) in Lookup(zone, DMARCName(domain))
    ensures Passes(zone, domain, selector, key, cfg)
  {
    DKIMPasses(key);
    DMARCPasses(domain);
    ShowsIs(zone, DKIMName(domain, selector), if |key| > 40 then key[..40] else key);
    PermitsIs(zone, domain, cfg);
    ShowsIs(zone, DMARCName(domain), "v=DMARC1");
  }

  /**
    The shortcut agrees with the slow check: after an error-free setup, in whatever zone it started,
    all three tests succeed.  Verify itself then panics exactly for a key of fewer than 40 characters,
    because there is a record at the DKIM name to compare with.
    */
  lemma ShortcutAgrees(zone: seq<Record>, domain: string, selector: string, key: string, cfg: Config, calls: seq<Call>)
    requires |calls| == 3 && Succeeded(calls)
    ensures var z := SetupZone(zone, Wanted(domain, selector, key, cfg.serverIP), calls);
            && Passes(z, domain, selector, key, cfg)
            && HasText(z, selector + "._domainkey." + domain)
  {
    var recs := Wanted(domain, selector, key, cfg.serverIP);
    var z := SetupZone(zone, recs, calls);
    NamesDiffer(domain, selector, key, cfg.serverIP);
    SetupHolds(zone, recs, calls, 0);
    SetupHolds(zone, recs, calls, 1);
    SetupHolds(zone, recs, calls, 2);
    HeldIsFound(z, recs[0]);
    HeldIsFound(z, recs[1]);
    HeldIsFound(z, recs[2]);
    PolicyPasses(cfg.serverIP, " include:" + "delivery.lisaos.dev" + " ~all", cfg);
    LookupIs(z, DKIMName(domain, selector));
    HeldPasses(z, domain, selector, key, cfg, SPFText(cfg.serverIP));
  }

  lemma RecordFound(zone: seq<Record>, name: string, content: string)
    requires Record("TXT", name, content, 3600, false) in zone
    ensures content in Lookup(zone, name)
  {
    LookupIs(zone, name);
    var i :| 0 <= i < |zone| && zone[i] == Record("TXT", name, content, 3600, false);
    assert zone[i].kind == "TXT" && zone[i].name == name && zone[i].content == content;
  }

  /** The policy shown to the user, which is not the one the setup writes. */
  function ShownSPF(ip: string): string { "v=spf1 ip4:" + ip + " ~all" }

  /** A user who enters the three shown records by hand passes as well, though the shown policy differs. */
  lemma ShownRecordsPass(zone: seq<Record>, domain: string, selector: string, key: string, cfg: Config)
    requires Record("TXT", selector + "._domainkey." + domain, "v=DKIM1; k=rsa; p=" + key, 3600, false) in zone
    requires Record("TXT", domain, "v=spf1 ip4:" + cfg.serverIP + " ~all", 3600, false) in zone
    requires Record("TXT", "_dmarc." + domain, "v=DMARC1" + "; p=quarantine; rua=mailto:dmarc@" + domain, 3600, false) in zone
    ensures Passes(zone, domain, selector, key, cfg)
    ensures ShownSPF(cfg.serverIP) != SPFText(cfg.serverIP)
  {
    RecordFound(zone, DKIMName(domain, selector), DKIMText(key));
    RecordFound(zone, domain, ShownSPF(cfg.serverIP));
    RecordFound(zone, DMARCName(domain), DMARCText(domain));
    PolicyPasses(cfg.serverIP, " ~all", cfg);
    HeldPasses(zone, domain, selector, key, cfg, ShownSPF(cfg.serverIP));
  }
}
