/** The notification handlers as they run: a table, the preferences, and the hub they publish to. */
module Notifications {
  import opened Wrappers
  import opened Badge

  function CountOf(rows: map<string, Row>, user: string): nat {
    |set id | id in rows && rows[id].user == user && !rows[id].read|
  }

  /** The log has grown by one publication to the user: how many of the user's rows are unread. */
  predicate Recounted(before: seq<H.Publication>, after: seq<H.Publication>, user: string, rows: map<string, Row>) {
    after == before + [H.Publication(user, H.Event("unread_count", None, Some(CountOf(rows, user))), "")]
  }

  /** It has grown by the notification itself and then the count. */
  predicate Told(before: seq<H.Publication>, after: seq<H.Publication>, user: string, uuid: string, rows: map<string, Row>) {
    Recounted(before + [H.Publication(user, H.Event("notification", Some(uuid), None), "")], after, user, rows)
  }

  class Service {
    var rows: map<string, Row>
    var prefs: map<string, Prefs>
    var initial: map<nat, nat>
    ghost var missed: map<nat, nat>
    const hub: H.EventHub

    ghost function Model(): State
      reads this, hub
    {
      State(rows, prefs, hub.Model(), initial, missed)
    }

    ghost predicate Valid()
      reads this, hub
    {
      Good(Model())
    }

    constructor ()
      ensures Valid() && Model() == Badge.EMPTY && fresh(hub)
    {
      rows, prefs, initial, missed := map[], map[], map[], map[];
      hub := new H.EventHub();
    }

    method PublishUnread(user: string)
      requires H.Tidy(hub.Model())
      modifies this, hub
      ensures Model() == Badge.PublishUnread(old(Model()), user)
      ensures rows == old(rows) && Recounted(old(hub.log), hub.log, user, rows)
    {
      ghost var before := Model();
      var count := Count(rows, user);
      hub.Publish(user, CountEvent(count));
      missed := Badge.PublishUnread(before, user).missed;
    }

    /** What the three notify handlers share once they have decided to insert. */
    method Insert(user: string, kind: string, uuid: string, inApp: bool)
      requires H.Tidy(hub.Model())
      modifies this, hub
      ensures Model() == Notify(old(Model()), user, kind, uuid, inApp)
      ensures rows == old(rows)[uuid := Row(user, kind, false)]
      ensures if inApp then Told(old(hub.log), hub.log, user, uuid, rows) else hub.log == old(hub.log)
    {
      ghost var before := Model();
      rows := rows[uuid := Row(user, kind, false)];
      if inApp {
        H.TidyStep(hub.Model(), H.Op.Publish(user, NoticeEvent(uuid), ""));
        hub.Publish(user, NoticeEvent(uuid));
        PublishUnread(user);
      } else {
        missed := Notify(before, user, kind, uuid, false).missed;
      }
    }

    method ServiceNotify(user: string, kind: string, title: string, uuid: string) returns (code: nat)
      requires Valid() && Enabled(Model(), Op.ServiceNotify(user, kind, title, uuid))
      modifies this, hub
      ensures Valid() && Model() == Apply(old(Model()), Op.ServiceNotify(user, kind, title, uuid))
      ensures code == 400 <==> user == "" || kind == "" || title == ""
      ensures code == 201 <==>
                && user != "" && kind != "" && title != ""
                && old(user in prefs ==> (prefs[user].inApp || prefs[user].webPush || prefs[user].mobile)
                                         && !(prefs[user].muted.Some? && kind in prefs[user].muted.value))
      ensures code == 201 ==>
                && rows == old(rows)[uuid := Row(user, kind, false)]
                && if old(user in prefs ==> prefs[user].inApp) then Told(old(hub.log), hub.log, user, uuid, rows)
                   else hub.log == old(hub.log)
      ensures code != 201 ==> (code == 200 || code == 400) && Model() == old(Model())
    {
      StepGood(Model(), Op.ServiceNotify(user, kind, title, uuid));
      if user == "" || kind == "" || title == "" {
        return 400;
      }
      var p := LoadPrefs(prefs, user);
      if !p.inApp && !p.webPush && !p.mobile {
        return 200;
      }
      if Muted(p, kind) {
        return 200;
      }
      Insert(user, kind, uuid, p.inApp);
      code := 201;
    }

    method SelfNotify(user: string, kind: string, title: string, uuid: string) returns (code: nat)
      requires Valid() && Enabled(Model(), Op.SelfNotify(user, kind, title, uuid))
      modifies this, hub
      ensures Valid() && Model() == Apply(old(Model()), Op.SelfNotify(user, kind, title, uuid))
      ensures var sent := if kind == "" then "self.message" else kind;
              && (code == 401 <==> user == "") && (code == 400 <==> user != "" && title == "")
              && (code == 201 <==>
                    && user != "" && title != ""
                    && old(user in prefs && prefs[user].muted.Some? ==> sent !in prefs[user].muted.value))
              && (code == 201 ==>
                    && rows == old(rows)[uuid := Row(user, sent, false)]
                    && if old(user in prefs ==> prefs[user].inApp) then Told(old(hub.log), hub.log, user, uuid, rows)
                       else hub.log == old(hub.log))
      ensures code != 201 ==> Model() == old(Model())
    {
      StepGood(Model(), Op.SelfNotify(user, kind, title, uuid));
      if user == "" {
        return 401;
      }
      if title == "" {
        return 400;
      }
      var p := LoadPrefs(prefs, user);
      if Muted(p, SelfKind(kind)) {
        return 200;
      }
      Insert(user, SelfKind(kind), uuid, p.inApp);
      code := 201;
    }

    method AdminNotify(user: string, kind: string, title: string, uuid: string) returns (code: nat)
      requires Valid() && Enabled(Model(), Op.AdminNotify(user, kind, title, uuid))
      modifies this, hub
      ensures Valid() && Model() == Apply(old(Model()), Op.AdminNotify(user, kind, title, uuid))
      ensures code == if user != "" && title != "" then 201 else 400
      ensures code == 201 ==>
                && rows == old(rows)[uuid := Row(user, if kind == "" then "test.message" else kind, false)]
                && Told(old(hub.log), hub.log, user, uuid, rows)
      ensures code != 201 ==> Model() == old(Model())
    {
      StepGood(Model(), Op.AdminNotify(user, kind, title, uuid));
      if user == "" || title == "" {
        return 400;
      }
      Insert(user, TestKind(kind), uuid, true);
      code := 201;
    }

    method MarkRead(user: string, id: string) returns (code: nat)
      requires Valid()
      modifies this, hub
      ensures Valid() && Model() == Apply(old(Model()), Op.MarkRead(user, id))
      ensures code == 200 <==> user != "" && old(id in rows && rows[id].user == user && !rows[id].read)
      ensures code == 200 ==>
                && rows == old(rows)[id := Row(user, old(rows)[id].kind, true)]
                && Recounted(old(hub.log), hub.log, user, rows)
                && CountOf(rows, user) + 1 == old(CountOf(rows, user))
      ensures code != 200 ==> code == (if user == "" then 401 else 404) && Model() == old(Model())
    {
      StepGood(Model(), Op.MarkRead(user, id));
      if user == "" {
        return 401;
      }
      if id !in Unread(rows, user) {
        return 404;
      }
      MarkedCounts(rows, id, user);
      MarkedOne(rows, id);
      rows := Marked(rows, {id});
      PublishUnread(user);
      code := 200;
    }

    method MarkAllRead(user: string) returns (code: nat)
      requires Valid()
      modifies this, hub
      ensures Valid() && Model() == Apply(old(Model()), Op.MarkAllRead(user))
      ensures code == if user == "" then 401 else 200
      ensures code == 200 ==>
                && rows.Keys == old(rows.Keys)
                && (forall id :: id in rows ==>
                      rows[id] == if old(rows)[id].user == user then old(rows)[id].(read := true) else old(rows)[id])
                && Recounted(old(hub.log), hub.log, user, rows) && CountOf(rows, user) == 0
      ensures code != 200 ==> Model() == old(Model())
    {
      StepGood(Model(), Op.MarkAllRead(user));
      if user == "" {
        return 401;
      }
      var ids := Unread(rows, user);
      rows := Marked(rows, ids);
      assert Unread(rows, user) == {};
      PublishUnread(user);
      code := 200;
    }

    method Delete(user: string, id: string) returns (code: nat)
      requires Valid()
      modifies this, hub
      ensures Valid() && Model() == Apply(old(Model()), Op.Delete(user, id))
      ensures code == 200 <==> user != "" && old(id in rows && rows[id].user == user)
      ensures code == 200 ==> rows == old(rows) - {id} && Recounted(old(hub.log), hub.log, user, rows)
      ensures code != 200 ==> code == (if user == "" then 401 else 404) && Model() == old(Model())
    {
      StepGood(Model(), Op.Delete(user, id));
      if user == "" {
        return 401;
      }
      if id !in rows || rows[id].user != user {
        return 404;
      }
      rows := rows - {id};
      PublishUnread(user);
      code := 200;
    }

    method Subscribe(user: string) returns (stream: nat)
      requires user != ""
      modifies this, hub
      ensures Model() == Apply(old(Model()), Op.Open(user))
      ensures stream == old(hub.nextID) + 1
    {
      stream := hub.Subscribe(user);
      missed := missed[stream := 0];
    }

    /** The first part of a stream's handler. */
    method Open(user: string) returns (stream: nat)
      requires Valid() && user != ""
      modifies this, hub
      ensures Valid() && Model() == Apply(old(Model()), Op.Open(user))
      ensures stream == old(hub.nextID) + 1 && hub.chans == old(hub.chans)[stream := H.Chan(user, [], false)]
      ensures rows == old(rows) && hub.log == old(hub.log)
    {
      StepGood(Model(), Op.Open(user));
      stream := Subscribe(user);
    }

    method FirstCount(stream: nat) returns (count: nat)
      requires Enabled(Model(), Op.ReadInitial(stream))
      modifies this
      ensures Model() == Apply(old(Model()), Op.ReadInitial(stream))
      ensures count == Count(rows, hub.chans[stream].user)
    {
      ghost var before := Model();
      count := Count(rows, hub.chans[stream].user);
      initial := initial[stream := count];
      missed := Apply(before, Op.ReadInitial(stream)).missed;
    }

    /** The count a stream writes before it forwards events. */
    method ReadInitial(stream: nat) returns (count: nat)
      requires Valid() && Enabled(Model(), Op.ReadInitial(stream))
      modifies this
      ensures Valid() && Model() == Apply(old(Model()), Op.ReadInitial(stream))
      ensures count == CountOf(rows, hub.chans[stream].user) && initial == old(initial)[stream := count]
      ensures rows == old(rows)
    {
      StepGood(Model(), Op.ReadInitial(stream));
      count := FirstCount(stream);
    }
  }

  lemma MarkedOne(rows: map<string, Row>, id: string)
    requires id in rows
    ensures Marked(rows, {id}) == rows[id := rows[id].(read := true)]
  {
  }
}
