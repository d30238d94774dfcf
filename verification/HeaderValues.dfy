/** What a reader of the header section finds: the values of the fixed fields, and of each extra header. */
module HeaderValues {
  import opened Base64
  import opened Mime
  import opened Message
  import opened HeaderBlock
  import opened FieldReading

  // What stripping keeps, and which extra headers count

  lemma {:induction false} StripConcat(a: string, b: string)
    ensures Strip(a + b) == Strip(a) + Strip(b)
  {
    if a == "" {
      assert a + b == b;
    } else {
      assert (a + b)[0] == a[0] && (a + b)[1..] == a[1..] + b;
      StripConcat(a[1..], b);
    }
  }

  /** Stripping removes every CR, LF and NUL, wherever it stands, and keeps every other character in its place. */
  lemma StripSpells(a: string, c: char, b: string)
    ensures Strip(a + [c] + b) == Strip(a) + (if c == '\r' || c == '\n' || c == '\0' then "" else [c]) + Strip(b)
  {
    StripConcat(a + [c], b);
    StripConcat(a, [c]);
    assert [c][1..] == "";
  }

  lemma {:induction false} KeptConcat(a: seq<(string, string)>, b: seq<(string, string)>)
    ensures Kept(a + b) == Kept(a) + Kept(b)
  {
    if a == [] {
      assert a + b == b;
    } else {
      assert (a + b)[0] == a[0] && (a + b)[1..] == a[1..] + b;
      KeptConcat(a[1..], b);
      Regroup(if Survives(a[0].0) then [(Strip(a[0].0), Strip(a[0].1))] else [], Kept(a[1..]), Kept(b));
    }
  }

  /**
    An extra header counts under a name if its stripped key is that name in any case, and is neither
    empty nor holds a colon, a blank or a tab; the order is the given one.
    */
  lemma ExtraSpells(a: seq<(string, string)>, key: string, value: string, b: seq<(string, string)>, name: string)
    ensures var k := Strip(key);
            var counts := k != "" && ':' !in k && ' ' !in k && '\t' !in k && Lower(k) == name;
            Named(a + [(key, value)] + b, name) == Named(a, name) + (if counts then [TrimLeft(Strip(value))] else []) + Named(b, name)
  {
    var one := [(key, value)];
    KeptConcat(a + one, b);
    KeptConcat(a, one);
    assert one[1..] == [];
    ValuesConcat(Kept(a) + Kept(one), Kept(b), name);
    ValuesConcat(Kept(a), Kept(one), name);
    if Survives(key) { assert [(Strip(key), Strip(value))][1..] == []; }
  }

  // The header section

  /** The lines of a text before the first empty one. */
  function Section(text: string): seq<string> { Lines(text)[..HeaderLength(Lines(text))] }

  lemma LowerFrom() ensures Lower("From") == "from" {}
  lemma LowerTo() ensures Lower("To") == "to" {}
  lemma LowerSubject() ensures Lower("Subject") == "subject" {}
  lemma LowerDate() ensures Lower("Date") == "date" {}
  lemma LowerMessage() ensures Lower("Message-ID") == "message-id" { LowerWord("Message-ID", "message-id"); }
  lemma LowerList() ensures Lower("List-") == "list-" {}
  lemma LowerUn() ensures Lower("Unsub") == "unsub" {}
  lemma LowerScribe() ensures Lower("scribe") == "scribe" {}
  lemma LowerPost() ensures Lower("-Post") == "-post" {}

  lemma UnsubscribeSplits()
    ensures "List-Unsubscribe" == "List-" + "Unsub" + "scribe" && "list-unsubscribe" == "list-" + "unsub" + "scribe"
  {
  }

  lemma PostSplits()
    ensures "List-Unsubscribe-Post" == "List-Unsubscribe" + "-Post" && "list-unsubscribe-post" == "list-unsubscribe" + "-post"
  {
  }

  lemma LowerUnsubscribe()
    ensures Lower("List-Unsubscribe") == "list-unsubscribe"
  {
    LowerList();
    LowerUn();
    LowerScribe();
    LowerConcat("List-", "Unsub");
    LowerConcat("List-" + "Unsub", "scribe");
    UnsubscribeSplits();
  }

  lemma LowerUnsubscribePost()
    ensures Lower("List-Unsubscribe-Post") == "list-unsubscribe-post"
  {
    LowerUnsubscribe();
    LowerPost();
    LowerConcat("List-Unsubscribe", "-Post");
    PostSplits();
  }

  lemma Name0() ensures Lower(FIXED_NAMES[0]) == "from" { LowerFrom(); }
  lemma Name1() ensures Lower(FIXED_NAMES[1]) == "to" { LowerTo(); }
  lemma Name2() ensures Lower(FIXED_NAMES[2]) == "subject" { LowerSubject(); }
  lemma Name3() ensures Lower(FIXED_NAMES[3]) == "date" { LowerDate(); }
  lemma Name4() ensures Lower(FIXED_NAMES[4]) == "message-id" { LowerMessage(); }
  lemma Name5() ensures Lower(FIXED_NAMES[5]) == "mime-version" { VersionKey(); }
  lemma Name6() ensures Lower(FIXED_NAMES[6]) == "list-unsubscribe" { LowerUnsubscribe(); }
  lemma Name7() ensures Lower(FIXED_NAMES[7]) == "list-unsubscribe-post" { LowerUnsubscribePost(); }

  /** The header section of a built message. */
  ghost function Built(env: Env, from: string, fromName: string, to: string, subject: string,
                       html: seq<Byte>, text: seq<Byte>, extra: seq<(string, string)>, files: seq<Attachment>): seq<string> {
    Section(Unlines(MessageLines(env, from, fromName, to, subject, html, text, extra, files)))
  }

  /** The section holds this one value under the name, and then what the extra headers file there. */
  predicate Holds(section: seq<string>, name: string, value: string, extra: seq<(string, string)>) {
    Fields(section, name) == [TrimLeft(value)] + Named(extra, name)
  }

  /** One fixed field of a built message: the builder's value, and below it what extra headers file there. */
  lemma FixedRead(env: Env, from: string, fromName: string, to: string, subject: string,
                  html: seq<Byte>, text: seq<Byte>, extra: seq<(string, string)>, files: seq<Attachment>, i: nat, name: string)
    requires Steady(env) && i < 8 && name == Lower(FIXED_NAMES[i])
    ensures Holds(Built(env, from, fromName, to, subject, html, text, extra, files), name,
                  FixedFields(env, from, fromName, to, subject)[i].1, extra)
  {
    HeaderIntegrity(env, from, fromName, to, subject, html, text, extra, files);
    FixedProper(i);
    LowerKeepsColons(FIXED_NAMES[i]);
    HeadValues(env, from, fromName, to, subject, extra, name);
    FixedValues(env, from, fromName, to, subject, i);
    TailHoldsNoFixed(env, html, text, files, i);
    var head := HeadLines(env, from, fromName, to, subject, extra);
    FieldsConcat(head, TailHeader(env, html, text, files), name);
    assert Fields(head, name) + [] == Fields(head, name);
  }

  /**
    What a reader finds in the header section of any built message: the caller's addresses, names and
    subject, stripped and encoded, each under its own field, and after them the extra headers of that
    name.
    */
  lemma AddressesRead(env: Env, from: string, fromName: string, to: string, subject: string,
                      html: seq<Byte>, text: seq<Byte>, extra: seq<(string, string)>, files: seq<Attachment>)
    requires Steady(env)
    ensures var h := Built(env, from, fromName, to, subject, html, text, extra, files);
            && Holds(h, "from", if Strip(fromName) == "" then Strip(from)
                                else env.qencode(Strip(fromName)) + " <" + Strip(from) + ">", extra)
            && Holds(h, "to", Strip(to), extra)
            && Holds(h, "subject", env.qencode(Strip(subject)), extra)
  {
    Name0();
    Name1();
    Name2();
    FixedRead(env, from, fromName, to, subject, html, text, extra, files, 0, "from");
    FixedRead(env, from, fromName, to, subject, html, text, extra, files, 1, "to");
    FixedRead(env, from, fromName, to, subject, html, text, extra, files, 2, "subject");
  }

  /** And the date, the message id at the sender's domain, and the unsubscribe address there. */
  lemma ServiceFieldsRead(env: Env, from: string, fromName: string, to: string, subject: string,
                          html: seq<Byte>, text: seq<Byte>, extra: seq<(string, string)>, files: seq<Attachment>)
    requires Steady(env)
    ensures var h := Built(env, from, fromName, to, subject, html, text, extra, files);
            && Holds(h, "date", env.date, extra)
            && Holds(h, "message-id", "<" + env.unique + "@" + env.domain(Strip(from)) + ">", extra)
            && Holds(h, "mime-version", "1.0", extra)
  {
    Name3();
    Name4();
    Name5();
    FixedRead(env, from, fromName, to, subject, html, text, extra, files, 3, "date");
    FixedRead(env, from, fromName, to, subject, html, text, extra, files, 4, "message-id");
    FixedRead(env, from, fromName, to, subject, html, text, extra, files, 5, "mime-version");
  }

  lemma UnsubscribeRead(env: Env, from: string, fromName: string, to: string, subject: string,
                        html: seq<Byte>, text: seq<Byte>, extra: seq<(string, string)>, files: seq<Attachment>)
    requires Steady(env)
    ensures var h := Built(env, from, fromName, to, subject, html, text, extra, files);
            && Holds(h, "list-unsubscribe", "<mailto:unsubscribe@" + env.domain(Strip(from)) + "?subject=unsubscribe>", extra)
            && Holds(h, "list-unsubscribe-post", "List-Unsubscribe=One-Click", extra)
  {
    Name6();
    Name7();
    FixedRead(env, from, fromName, to, subject, html, text, extra, files, 6, "list-unsubscribe");
    FixedRead(env, from, fromName, to, subject, html, text, extra, files, 7, "list-unsubscribe-post");
  }
}
