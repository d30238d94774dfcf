/** Outbound delivery of sender.go: exchangers in order, and how failures are classified. */
module Sender {
  import opened Wrappers
  import Delivery

  /** A Go error: *SMTPError, or anything else. */
  datatype Fault = SmtpFault(code: nat, permanent: bool) | Plain

  predicate Digit(c: char) { '0' <= c <= '9' }

  /** The reply code at the head of an error text, or 0. */
  function ReplyCode(msg: string): nat {
    if |msg| >= 3 && Digit(msg[0]) && Digit(msg[1]) && Digit(msg[2]) then
      (msg[0] as int - '0' as int) * 100 + (msg[1] as int - '0' as int) * 10 + (msg[2] as int - '0' as int)
    else 0
  }

  /** Three digits at the head of the text read as the number they write. */
  lemma CodeReads(a: nat, b: nat, c: nat, rest: string)
    requires a < 10 && b < 10 && c < 10
    ensures ReplyCode([(48 + a) as char, (48 + b) as char, (48 + c) as char] + rest) == 100 * a + 10 * b + c
  {
  }

  /** And a text that does not start with three digits reads as 0. */
  lemma NoCode(msg: string)
    requires |msg| < 3 || exists i :: 0 <= i < 3 && !('0' <= msg[i] <= '9')
    ensures ReplyCode(msg) == 0
  {
  }

  method ParseCode(msg: string) returns (code: nat)
    ensures code == ReplyCode(msg)
  {
    if |msg| >= 3 {
      code := 0;
      for i := 0 to 3
        invariant forall j :: 0 <= j < i ==> Digit(msg[j])
        invariant i == 0 ==> code == 0
        invariant i == 1 ==> code == msg[0] as int - '0' as int
        invariant i == 2 ==> code == (msg[0] as int - '0' as int) * 10 + (msg[1] as int - '0' as int)
        invariant i == 3 ==> code == ReplyCode(msg)
      {
        if Digit(msg[i]) {
          code := code * 10 + (msg[i] as int - '0' as int);
        } else {
          return 0;
        }
      }
      return code;
    }
    return 0;
  }

  predicate IsPermanent(msg: string) { 500 <= ReplyCode(msg) < 600 }

  /** Permanent means a three-digit reply that starts with 5, and nothing else. */
  lemma PermanentMeansFive(msg: string)
    ensures IsPermanent(msg) <==> |msg| >= 3 && msg[0] == '5' && Digit(msg[1]) && Digit(msg[2])
  {
  }

  /** The error text of each stage of one SMTP dialogue, None where the stage went well. */
  datatype Dialogue = Dialogue(connect: Option<string>, greet: Option<string>, ehlo: Option<string>,
    mail: Option<string>, rcpt: Option<string>, data: Option<string>, write: Option<string>,
    close: Option<string>, quit: Option<string>)

  function Classified(msg: string): Fault { SmtpFault(ReplyCode(msg), IsPermanent(msg)) }

  /** sendToMX: only a refused recipient and a refused message become *SMTPError. */
  function SendToMX(d: Dialogue): Option<Fault> {
    if d.connect.Some? || d.greet.Some? || d.ehlo.Some? || d.mail.Some? then Some(Plain)
    else if d.rcpt.Some? then Some(Classified(d.rcpt.value))
    else if d.data.Some? || d.write.Some? then Some(Plain)
    else if d.close.Some? then Some(Classified(d.close.value))
    else if d.quit.Some? then Some(Plain)
    else None
  }

  /** The exchanger has taken responsibility for the message. */
  predicate Accepted(d: Dialogue) {
    && d.connect.None? && d.greet.None? && d.ehlo.None? && d.mail.None?
    && d.rcpt.None? && d.data.None? && d.write.None? && d.close.None?
  }

  /** No stage of the dialogue fails. */
  predicate Smooth(d: Dialogue) {
    && d.connect.None? && d.greet.None? && d.ehlo.None? && d.mail.None? && d.rcpt.None?
    && d.data.None? && d.write.None? && d.close.None? && d.quit.None?
  }

  /**
    A dialogue ends well if no stage fails; its error carries a reply code if the first stage to fail
    is the recipient or the end of the data, and then the code at the head of that stage's text, which
    is permanent from 500 to 599.
    */
  lemma DialogueClassified(d: Dialogue, msg: string)
    ensures SendToMX(d).None? <==> Smooth(d)
    ensures && d.connect.None? && d.greet.None? && d.ehlo.None? && d.mail.None?
            && (d.rcpt == Some(msg) || (d.rcpt.None? && d.data.None? && d.write.None? && d.close == Some(msg)))
            ==> SendToMX(d) == Some(SmtpFault(ReplyCode(msg), 500 <= ReplyCode(msg) < 600))
    ensures SendToMX(d).Some? && SendToMX(d).value.SmtpFault? ==>
              && d.connect.None? && d.greet.None? && d.ehlo.None? && d.mail.None?
              && (d.rcpt.Some? || (d.data.None? && d.write.None? && d.close.Some?))
  {
  }

  /** One dialogue per exchanger position and host. */
  type Network = (nat, string) -> Dialogue

  function TrimDot(host: string): string {
    if host != "" && host[|host| - 1] == '.' then host[..|host| - 1] else host
  }

  function AfterAt(to: string): string
    requires '@' in to
  {
    if to[0] == '@' then to[1..] else AfterAt(to[1..])
  }

  /** The exchangers to try: the MX records, or the domain itself when there are none. */
  function Targets(to: string, mx: Option<seq<string>>): seq<string>
    requires '@' in to
  {
    if mx.None? || mx.value == [] then [AfterAt(to)] else mx.value
  }

  lemma {:induction false} AfterAtIs(local: string, domain: string)
    requires '@' !in local
    ensures '@' in local + "@" + domain && AfterAt(local + "@" + domain) == domain
  {
    var to := local + "@" + domain;
    assert to[|local|] == '@';
    if local == "" {
      assert to[1..] == domain;
    } else {
      assert to[0] == local[0] && to[1..] == local[1..] + "@" + domain;
      AfterAtIs(local[1..], domain);
    }
  }

  predicate Works(hosts: seq<string>, net: Network, i: nat)
    requires i < |hosts|
  {
    SendToMX(net(i, TrimDot(hosts[i]))).None?
  }

  /** What Send returns, by its meaning: success iff the recipient is well formed and an exchanger works. */
  ghost function SendResult(to: string, mx: Option<seq<string>>, net: Network): Option<Fault> {
    if '@' in to && exists i :: 0 <= i < |Targets(to, mx)| && Works(Targets(to, mx), net, i) then None
    else Some(Plain)
  }

  /** The name that is dialled: the record's host without the dot that may end it. */
  predicate Dials(host: string, name: string) {
    host == name + "." || (host == name && (name == "" || name[|name| - 1] != '.'))
  }

  lemma DialsIs(host: string)
    ensures Dials(host, TrimDot(host)) && forall name :: Dials(host, name) ==> name == TrimDot(host)
  {
    forall name | Dials(host, name) ensures name == TrimDot(host) {
      if host == name + "." { assert host[..|host| - 1] == name; }
    }
    if TrimDot(host) != host { assert host == TrimDot(host) + "."; }
  }

  /** Without records the recipient's domain itself is dialled, and with records each of them in turn. */
  lemma WhomSendDials(local: string, domain: string, mx: Option<seq<string>>, net: Network, names: seq<string>)
    requires '@' !in local
    requires var hosts := if mx.None? || mx.value == [] then [domain] else mx.value;
             |names| == |hosts| && forall i :: 0 <= i < |hosts| ==> Dials(hosts[i], names[i])
    ensures SendResult(local + "@" + domain, mx, net).None? <==> exists i :: 0 <= i < |names| && Smooth(net(i, names[i]))
  {
    AfterAtIs(local, domain);
    var hosts := Targets(local + "@" + domain, mx);
    forall i | 0 <= i < |names| ensures Works(hosts, net, i) <==> Smooth(net(i, names[i])) { DialsIs(hosts[i]); }
  }

  /** The number of exchangers Send tries: up to the first that works, or all of them. */
  function Tried(hosts: seq<string>, net: Network): (n: nat)
    ensures n <= |hosts| && (hosts != [] ==> n > 0)
    ensures forall i :: 0 <= i < n - 1 ==> !Works(hosts, net, i)
    ensures n < |hosts| ==> n > 0 && Works(hosts, net, n - 1)
  {
    TriedFrom(hosts, net, 0)
  }

  function TriedFrom(hosts: seq<string>, net: Network, from: nat): (n: nat)
    requires from <= |hosts|
    ensures from <= n <= |hosts| && (from < |hosts| ==> from < n)
    ensures forall i :: from <= i < n - 1 ==> !Works(hosts, net, i)
    ensures n < |hosts| ==> n > from && Works(hosts, net, n - 1)
    decreases |hosts| - from
  {
    if from == |hosts| then from else if Works(hosts, net, from) then from + 1 else TriedFrom(hosts, net, from + 1)
  }

  /** The exchanger at a position takes the message. */
  predicate Takes(hosts: seq<string>, net: Network, i: nat)
    requires i < |hosts|
  {
    Accepted(net(i, TrimDot(hosts[i])))
  }

  /** It takes the message and then fails to say goodbye, which Send counts as a failure. */
  predicate TakesSilently(hosts: seq<string>, net: Network, i: nat)
    requires i < |hosts|
  {
    Takes(hosts, net, i) && net(i, TrimDot(hosts[i])).quit.Some?
  }

  /** How many of the first n exchangers hold the message, and how many of those without Send knowing. */
  function Deliveries(hosts: seq<string>, net: Network, n: nat): nat
    requires n <= |hosts|
  {
    if n == 0 then 0 else Deliveries(hosts, net, n - 1) + if Takes(hosts, net, n - 1) then 1 else 0
  }

  function SilentDeliveries(hosts: seq<string>, net: Network, n: nat): nat
    requires n <= |hosts|
  {
    if n == 0 then 0 else SilentDeliveries(hosts, net, n - 1) + if TakesSilently(hosts, net, n - 1) then 1 else 0
  }

  /** An exchanger works exactly if it takes the message and says goodbye. */
  lemma WorksIs(hosts: seq<string>, net: Network, i: nat)
    requires i < |hosts|
    ensures Works(hosts, net, i) <==> Takes(hosts, net, i) && !TakesSilently(hosts, net, i)
  {
  }

  lemma {:induction false} OnlySilent(hosts: seq<string>, net: Network, n: nat)
    requires n <= |hosts| && forall i :: 0 <= i < n ==> !Works(hosts, net, i)
    ensures Deliveries(hosts, net, n) == SilentDeliveries(hosts, net, n)
  {
    if n > 0 {
      OnlySilent(hosts, net, n - 1);
      WorksIs(hosts, net, n - 1);
      assert !Works(hosts, net, n - 1);
    }
  }

  /** Every copy left behind by one call is a silent one, except the last of a call that succeeds. */
  lemma DeliveriesCounted(to: string, mx: Option<seq<string>>, net: Network)
    requires '@' in to
    ensures var hosts := Targets(to, mx); var n := Tried(hosts, net);
            Deliveries(hosts, net, n)
            == SilentDeliveries(hosts, net, n) + if SendResult(to, mx, net).None? then 1 else 0
  {
    var hosts := Targets(to, mx);
    var n := Tried(hosts, net);
    OnlySilent(hosts, net, n - 1);
    WorksIs(hosts, net, n - 1);
    if SendResult(to, mx, net).None? {
      LastWorks(hosts, net);
    } else {
      assert !Works(hosts, net, n - 1);
    }
  }

  lemma LastWorks(hosts: seq<string>, net: Network)
    requires exists i :: 0 <= i < |hosts| && Works(hosts, net, i)
    ensures Tried(hosts, net) > 0 && Works(hosts, net, Tried(hosts, net) - 1)
  {
    var i :| 0 <= i < |hosts| && Works(hosts, net, i);
    var n := Tried(hosts, net);
    if n == |hosts| { assert i == n - 1; }
  }

  lemma {:induction false} CountPositive(hosts: seq<string>, net: Network, n: nat)
    requires n <= |hosts|
    ensures Deliveries(hosts, net, n) >= 1 <==> exists i :: 0 <= i < n && Takes(hosts, net, i)
  {
    if n > 0 { CountPositive(hosts, net, n - 1); }
  }

  lemma {:induction false} CountTwo(hosts: seq<string>, net: Network, n: nat)
    requires n <= |hosts|
    ensures Deliveries(hosts, net, n) >= 2 <==> exists i, j :: 0 <= i < j < n && Takes(hosts, net, i) && Takes(hosts, net, j)
  {
    if n > 0 {
      CountTwo(hosts, net, n - 1);
      CountPositive(hosts, net, n - 1);
      if Takes(hosts, net, n - 1) && Deliveries(hosts, net, n - 1) >= 1 {
        var i :| 0 <= i < n - 1 && Takes(hosts, net, i);
        assert Takes(hosts, net, i) && Takes(hosts, net, n - 1);
      }
    }
  }

  /** Send fails although some exchanger holds the message, exactly when none works and some QUIT was to blame. */
  lemma FailsThoughDelivered(to: string, mx: Option<seq<string>>, net: Network)
    requires '@' in to
    ensures var hosts := Targets(to, mx);
            SendResult(to, mx, net).Some? && Deliveries(hosts, net, Tried(hosts, net)) > 0
            <==> (forall i :: 0 <= i < |hosts| ==> !Works(hosts, net, i))
                 && exists i :: 0 <= i < |hosts| && TakesSilently(hosts, net, i)
  {
    var hosts := Targets(to, mx);
    var n := Tried(hosts, net);
    CountPositive(hosts, net, n);
    forall i | 0 <= i < |hosts| ensures Works(hosts, net, i) <==> Takes(hosts, net, i) && !TakesSilently(hosts, net, i) {
      WorksIs(hosts, net, i);
    }
    if forall i :: 0 <= i < |hosts| ==> !Works(hosts, net, i) {
      assert n == |hosts|;
      if i :| 0 <= i < |hosts| && TakesSilently(hosts, net, i) { assert Takes(hosts, net, i); }
      if i :| 0 <= i < |hosts| && Takes(hosts, net, i) { assert TakesSilently(hosts, net, i); }
    }
  }

  /**
    One call hands the message to several exchangers, exactly when one of those tried took it, lost
    its QUIT, and a later one tried took it too.
    */
  lemma DeliveredTwice(to: string, mx: Option<seq<string>>, net: Network)
    requires '@' in to
    ensures var hosts := Targets(to, mx); var n := Tried(hosts, net);
            Deliveries(hosts, net, n) >= 2
            <==> exists i, j :: 0 <= i < j < n && TakesSilently(hosts, net, i) && Takes(hosts, net, j)
  {
    var hosts := Targets(to, mx);
    var n := Tried(hosts, net);
    CountTwo(hosts, net, n);
    if Deliveries(hosts, net, n) >= 2 {
      var i, j :| 0 <= i < j < n && Takes(hosts, net, i) && Takes(hosts, net, j);
      WorksIs(hosts, net, i);
      assert TakesSilently(hosts, net, i) && Takes(hosts, net, j);
    }
  }

  /** The input: two exchangers, the first of which takes the message and fails at QUIT. */
  lemma TwoCopiesOneSuccess() returns (net: Network)
    ensures SendResult("u@d", Some(["a", "b"]), net) == None
    ensures Deliveries(["a", "b"], net, Tried(["a", "b"], net)) == 2
  {
    var fine := Dialogue(None, None, None, None, None, None, None, None, None);
    net := (i, host) => if i == 0 then fine.(quit := Some("EOF")) else fine;
    var hosts := ["a", "b"];
    assert !Works(hosts, net, 0) && Works(hosts, net, 1) && Takes(hosts, net, 0) && Takes(hosts, net, 1);
    assert Deliveries(hosts, net, 1) == 1 && Deliveries(hosts, net, 2) == 2;
    assert Targets("u@d", Some(hosts)) == hosts;
  }

  /**
    Exchangers are tried in list order up to the first that works; the error of a failure is
    always a fresh one that no longer carries the *SMTPError it was made from.
    */
  method Send(to: string, mx: Option<seq<string>>, net: Network) returns (err: Option<Fault>, tried: nat)
    ensures err == SendResult(to, mx, net)
    ensures tried == if '@' in to then Tried(Targets(to, mx), net) else 0
    ensures '@' in to ==>
              var hosts := Targets(to, mx);
              && 0 < tried <= |hosts|
              && (forall i :: 0 <= i < tried - 1 ==> !Works(hosts, net, i))
              && (if err.None? then Works(hosts, net, tried - 1)
                  else tried == |hosts| && !Works(hosts, net, tried - 1))
  {
    if '@' !in to {
      return Some(Plain), 0;
    }
    var hosts := Targets(to, mx);
    tried := 0;
    while tried < |hosts|
      invariant tried <= |hosts|
      invariant forall i :: 0 <= i < tried ==> !Works(hosts, net, i)
    {
      var failure := SendToMX(net(tried, TrimDot(hosts[tried])));
      tried := tried + 1;
      if failure.None? {
        assert Works(hosts, net, tried - 1);
        TriedIs(hosts, net, tried);
        return None, tried;
      }
    }
    TriedIs(hosts, net, tried);
    err := Some(Plain);
  }

  lemma TriedIs(hosts: seq<string>, net: Network, n: nat)
    requires 0 < n <= |hosts| && (forall i :: 0 <= i < n - 1 ==> !Works(hosts, net, i))
    requires n == |hosts| || Works(hosts, net, n - 1)
    ensures Tried(hosts, net) == n
  {
    var m := Tried(hosts, net);
    assert m > 0;
  }

  /** How process sees the result of Send. */
  function OutcomeOf(err: Option<Fault>): Delivery.Outcome {
    match err
    case None => Delivery.Ok
    case Some(SmtpFault(_, permanent)) => Delivery.Smtp(permanent)
    case Some(Plain) => Delivery.Other
  }
}
