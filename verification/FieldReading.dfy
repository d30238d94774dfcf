/** How the reference reader sees header fields that are written one to a line. */
module FieldReading {
  import opened Wrappers
  import opened Base64
  import opened Mime
  import opened Message
  import opened HeaderBlock

  /** A field as its key and its value. */
  type Field = (string, string)

  function Line(f: Field): string { f.0 + ": " + f.1 }

  function FieldLines(fs: seq<Field>): seq<string> { if fs == [] then [] else [Line(fs[0])] + FieldLines(fs[1..]) }

  predicate Proper(key: string) { key != "" && ':' !in key && ' ' !in key && '\t' !in key }

  predicate AllProper(fs: seq<Field>) { forall i :: 0 <= i < |fs| ==> Proper(fs[i].0) }

  /** The values filed under a name, in any case. */
  function Values(fs: seq<Field>, name: string): seq<string> {
    if fs == [] then [] else (if Lower(fs[0].0) == name then [TrimLeft(fs[0].1)] else []) + Values(fs[1..], name)
  }

  lemma {:induction false} LowerConcat(a: string, b: string)
    ensures Lower(a + b) == Lower(a) + Lower(b)
  {
    if a == "" {
      assert a + b == b;
    } else {
      assert (a + b)[1..] == a[1..] + b;
      LowerConcat(a[1..], b);
    }
  }

  lemma NameHasNoColon(line: string, name: string, i: nat)
    requires IsField(line, name) && ':' !in name
    ensures i < |name| ==> line[i] != ':'
  {
    if i < |name| { assert Lower(line[..|name|])[i] == LowerChar(line[i]) && name[i] in name; }
  }

  /** A line opens a field of a name iff its key is that name, whatever its value. */
  lemma KeyDecides(k: string, v: string, name: string)
    requires ':' !in k && ':' !in name
    ensures IsField(Line((k, v)), name) <==> Lower(k) == name
  {
    var line := Line((k, v));
    assert line[|k|] == ':' && line[..|k|] == k && forall i :: 0 <= i < |k| ==> line[i] == k[i];
    if IsField(line, name) && |k| != |name| {
      NameHasNoColon(line, name, |k|);
    }
  }

  lemma TrimOne(value: string)
    ensures TrimLeft(" " + value) == TrimLeft(value)
  {
    assert (" " + value)[1..] == value;
  }

  lemma ProperLine(f: Field)
    requires Proper(f.0)
    ensures Line(f) != "" && !Continues(Line(f)) && Line(f)[0] == f.0[0]
    ensures Line(f)[|f.0| + 1..] == " " + f.1
  {
    assert f.0[0] in f.0;
  }

  /** Proper fields are read as they were filed. */
  lemma {:induction false} FieldsOf(fs: seq<Field>, name: string)
    requires AllProper(fs) && ':' !in name
    ensures Fields(FieldLines(fs), name) == Values(fs, name)
    ensures FieldLines(fs) == [] || !Continues(FieldLines(fs)[0])
  {
    if fs != [] {
      var rest := fs[1..];
      assert forall i :: 0 <= i < |rest| ==> rest[i] == fs[i + 1];
      FieldsOf(rest, name);
      ProperLine(fs[0]);
      KeyDecides(fs[0].0, fs[0].1, name);
      TrimOne(fs[0].1);
      assert Folded(FieldLines(rest)) == "";
      if Lower(fs[0].0) == name { assert Line(fs[0])[|name| + 1..] + "" == " " + fs[0].1; }
      assert FieldLines(fs)[0] == Line(fs[0]) && FieldLines(fs)[1..] == FieldLines(rest);
    }
  }

  lemma {:induction false} ValuesConcat(a: seq<Field>, b: seq<Field>, name: string)
    ensures Values(a + b, name) == Values(a, name) + Values(b, name)
  {
    if a == [] {
      assert a + b == b;
    } else {
      assert (a + b)[1..] == a[1..] + b;
      ValuesConcat(a[1..], b, name);
    }
  }

  lemma {:induction false} FieldLinesConcat(a: seq<Field>, b: seq<Field>)
    ensures FieldLines(a + b) == FieldLines(a) + FieldLines(b)
  {
    if a == [] {
      assert a + b == b;
    } else {
      assert (a + b)[1..] == a[1..] + b;
      FieldLinesConcat(a[1..], b);
    }
  }

  /** Keys and names that already differ in length or in their first letter. */
  predicate Apart(key: string, name: string) {
    |key| != |name| || (key != "" && LowerChar(key[0]) != name[0])
  }

  lemma ApartDiffer(key: string, name: string)
    requires Apart(key, name)
    ensures Lower(key) != name
  {
  }

  lemma {:induction false} NoValues(fs: seq<Field>, name: string)
    requires forall i :: 0 <= i < |fs| ==> Apart(fs[i].0, name)
    ensures Values(fs, name) == []
  {
    if fs != [] {
      ApartDiffer(fs[0].0, name);
      assert forall i :: 0 <= i < |fs[1..]| ==> fs[1..][i] == fs[i + 1];
      NoValues(fs[1..], name);
    }
  }

  /** Only one field of a list is filed under the name. */
  lemma OnlyValue(fs: seq<Field>, i: nat, name: string)
    requires i < |fs| && Lower(fs[i].0) == name
    requires forall j :: 0 <= j < |fs| && j != i ==> Apart(fs[j].0, name)
    ensures Values(fs, name) == [TrimLeft(fs[i].1)]
  {
    var before, after := fs[..i], fs[i + 1..];
    NoValues(before, name);
    NoValues(after, name);
    assert fs == before + ([fs[i]] + after);
    ValuesConcat(before, [fs[i]] + after, name);
    assert ([fs[i]] + after)[1..] == after;
  }

  // The keys the builder writes

  const TYPE_KEY: string := "Content-Type"
  const ENCODING_KEY: string := "Content-Transfer-Encoding"
  const DISPOSITION_KEY: string := "Content-Disposition"

  lemma LowerContent() ensures Lower("Content-") == "content-" {}
  lemma LowerType() ensures Lower("Type") == "type" {}
  lemma LowerTransfer() ensures Lower("Transfer-") == "transfer-" {}
  lemma LowerEncoding() ensures Lower("Encoding") == "encoding" {}
  lemma LowerDispos() ensures Lower("Dispos") == "dispos" {}
  lemma LowerIt() ensures Lower("ition") == "ition" {}

  lemma TypeKeyProper() ensures Proper(TYPE_KEY) {}
  lemma EncodingKeyProper() ensures Proper(ENCODING_KEY) {}
  lemma DispositionKeyProper() ensures Proper(DISPOSITION_KEY) {}

  lemma LowerTypeKey()
    ensures Lower(TYPE_KEY) == TYPE
  {
    LowerContent();
    LowerType();
    LowerConcat("Content-", "Type");
    TypeSplits();
  }

  lemma TypeSplits()
    ensures TYPE_KEY == "Content-" + "Type" && TYPE == "content-" + "type"
  {
  }

  lemma LowerEncodingKey()
    ensures Lower(ENCODING_KEY) == ENCODING
  {
    LowerContent();
    LowerTransfer();
    LowerEncoding();
    LowerConcat("Content-", "Transfer-");
    LowerConcat("Content-" + "Transfer-", "Encoding");
    EncodingSplits();
  }

  lemma EncodingSplits()
    ensures ENCODING_KEY == "Content-" + "Transfer-" + "Encoding" && ENCODING == "content-" + "transfer-" + "encoding"
  {
  }

  lemma DispositionSplits()
    ensures DISPOSITION_KEY == "Content-" + "Dispos" + "ition" && DISPOSITION == "content-" + "dispos" + "ition"
  {
  }

  lemma LowerDispositionKey()
    ensures Lower(DISPOSITION_KEY) == DISPOSITION
  {
    LowerContent();
    LowerDispos();
    LowerIt();
    LowerConcat("Content-", "Dispos");
    LowerConcat("Content-" + "Dispos", "ition");
    DispositionSplits();
  }

  lemma {:induction false} WordStops(word: string, rest: string)
    requires rest != "" && rest[0] == ';'
    requires forall i :: 0 <= i < |word| ==> !IsBlank(word[i]) && word[i] != ';' && word[i] != '('
    ensures Word(word + rest) == word
  {
    if word == "" {
      assert word + rest == rest;
    } else {
      assert (word + rest)[1..] == word[1..] + rest;
      WordStops(word[1..], rest);
    }
  }

  lemma LowerWord(s: string, r: string)
    requires |s| == |r| && forall i :: 0 <= i < |s| ==> LowerChar(s[i]) == r[i]
    ensures Lower(s) == r
  {
  }

  lemma TypeKeyLine(value: string)
    ensures "Content-Type: " + value == Line((TYPE_KEY, value))
  {
    assert "Content-Type: " == TYPE_KEY + ": ";
  }

  lemma TransferLine()
    ensures TRANSFER == Line((ENCODING_KEY, "base64"))
  {
    assert "Content-Transfer-Encoding: " == ENCODING_KEY + ": ";
  }

  lemma AttachedLine(rest: string)
    ensures ATTACHED + rest == Line((DISPOSITION_KEY, "attachment; filename=\"" + rest))
  {
    assert "Content-Disposition: " == DISPOSITION_KEY + ": ";
    assert ATTACHED + rest == "Content-Disposition: " + ("attachment; filename=\"" + rest);
  }

  lemma Base64Word()
    ensures IsBase64("base64") && !Identity("base64") && TrimLeft("base64") == "base64"
  {
    assert Word("base64") == "base64";
    LowerWord("base64", "base64");
  }

  // The head of a message

  const FIXED_NAMES: seq<string> :=
    ["From", "To", "Subject", "Date", "Message-ID", "MIME-Version", "List-Unsubscribe", "List-Unsubscribe-Post"]

  function FixedFields(env: Env, from: string, fromName: string, to: string, subject: string): seq<Field> {
    var address, name := Strip(from), Strip(fromName);
    [("From", if name != "" then env.qencode(name) + " <" + address + ">" else address),
     ("To", Strip(to)),
     ("Subject", env.qencode(Strip(subject))),
     ("Date", env.date),
     ("Message-ID", "<" + env.unique + "@" + env.domain(address) + ">"),
     ("MIME-Version", "1.0"),
     ("List-Unsubscribe", "<mailto:unsubscribe@" + env.domain(address) + "?subject=unsubscribe>"),
     ("List-Unsubscribe-Post", "List-Unsubscribe=One-Click")]
  }

  /** The extra headers that survive the filter, stripped. */
  function Kept(extra: seq<(string, string)>): seq<Field> {
    if extra == [] then []
    else (if Survives(extra[0].0) then [(Strip(extra[0].0), Strip(extra[0].1))] else []) + Kept(extra[1..])
  }

  /** What the surviving extra headers file under a name. */
  function Named(extra: seq<(string, string)>, name: string): seq<string> { Values(Kept(extra), name) }

  lemma {:induction false} ExtraAre(extra: seq<(string, string)>)
    ensures ExtraLines(extra) == FieldLines(Kept(extra)) && AllProper(Kept(extra))
  {
    if extra != [] {
      ExtraAre(extra[1..]);
      if Survives(extra[0].0) {
        var f := (Strip(extra[0].0), Strip(extra[0].1));
        assert ([f] + Kept(extra[1..]))[1..] == Kept(extra[1..]);
      } else {
        EmptyFirst(Kept(extra[1..]));
      }
    }
  }

  lemma Unjoin(a: string, b: string, c: string, whole: string)
    requires whole == a + ": " + b
    ensures whole + c == a + ": " + (b + c)
  {
  }

  lemma FixedIs(env: Env, from: string, fromName: string, to: string, subject: string, i: nat)
    requires i < 8
    ensures FixedLines(env, from, fromName, to, subject)[i] == Line(FixedFields(env, from, fromName, to, subject)[i])
  {
    var domain := env.domain(Strip(from));
    if i == 4 {
      Unjoin("Message-ID", "<", env.unique, "Message-ID: <");
      Unjoin("Message-ID", "<" + env.unique, "@", "Message-ID: <" + env.unique);
      Unjoin("Message-ID", "<" + env.unique + "@", domain, "Message-ID: <" + env.unique + "@");
      Unjoin("Message-ID", "<" + env.unique + "@" + domain, ">", "Message-ID: <" + env.unique + "@" + domain);
    } else if i == 6 {
      UnsubscribeLine(domain);
    } else if i == 7 {
      PostLine();
    }
  }

  lemma UnsubscribeLine(domain: string)
    ensures "List-Unsubscribe: <mailto:unsubscribe@" + domain + "?subject=unsubscribe>"
         == Line(("List-Unsubscribe", "<mailto:unsubscribe@" + domain + "?subject=unsubscribe>"))
  {
    var a, b := "List-Unsubscribe", "<mailto:unsubscribe@";
    assert "List-Unsubscribe: <mailto:unsubscribe@" == a + ": " + b;
    Unjoin(a, b, domain, a + ": " + b);
    Unjoin(a, b + domain, "?subject=unsubscribe>", a + ": " + b + domain);
  }

  lemma PostLine()
    ensures "List-Unsubscribe-Post: " + "List-Unsubscribe=One-Click"
         == Line(("List-Unsubscribe-Post", "List-Unsubscribe=One-Click"))
  {
    assert "List-Unsubscribe-Post: " == "List-Unsubscribe-Post" + ": ";
  }

  lemma {:induction false} LinesAt(fs: seq<Field>, i: nat)
    requires i < |fs|
    ensures |FieldLines(fs)| == |fs| && FieldLines(fs)[i] == Line(fs[i])
  {
    if i > 0 { LinesAt(fs[1..], i - 1); } else if |fs| > 1 { LinesAt(fs[1..], 0); }
  }

  lemma SameEight(a: seq<string>, b: seq<string>)
    requires |a| == |b| == 8 && forall i :: 0 <= i < 8 ==> a[i] == b[i]
    ensures a == b
  {
  }

  lemma FixedAre(env: Env, from: string, fromName: string, to: string, subject: string)
    ensures FixedLines(env, from, fromName, to, subject) == FieldLines(FixedFields(env, from, fromName, to, subject))
  {
    var fields := FixedFields(env, from, fromName, to, subject);
    var lines := FixedLines(env, from, fromName, to, subject);
    LinesAt(fields, 0);
    forall i | 0 <= i < 8 ensures FieldLines(fields)[i] == lines[i] {
      LinesAt(fields, i);
      FixedIs(env, from, fromName, to, subject, i);
    }
    SameEight(FieldLines(fields), lines);
  }

  lemma FixedKey(env: Env, from: string, fromName: string, to: string, subject: string, i: nat)
    requires i < 8
    ensures FixedFields(env, from, fromName, to, subject)[i].0 == FIXED_NAMES[i]
  {
    assert FIXED_NAMES[0] == "From" && FIXED_NAMES[1] == "To" && FIXED_NAMES[2] == "Subject" && FIXED_NAMES[3] == "Date";
    assert FIXED_NAMES[4] == "Message-ID" && FIXED_NAMES[5] == "MIME-Version";
    assert FIXED_NAMES[6] == "List-Unsubscribe" && FIXED_NAMES[7] == "List-Unsubscribe-Post";
  }

  lemma FixedProper(i: nat)
    requires i < 8
    ensures Proper(FIXED_NAMES[i])
  {
    if i == 0 {
    } else if i == 1 {
    } else if i == 2 {
    } else if i == 3 {
    } else if i == 4 {
    } else if i == 5 {
    } else if i == 6 {
    }
  }

  lemma FixedLength(i: nat)
    requires i < 8
    ensures |FIXED_NAMES[i]| == [4, 2, 7, 4, 10, 12, 16, 21][i]
  {
    if i == 0 {
    } else if i == 1 {
    } else if i == 2 {
    } else if i == 3 {
    } else if i == 4 {
    } else if i == 5 {
    } else if i == 6 {
    }
  }

  lemma FromAndDate()
    ensures Apart("From", Lower("Date")) && Apart("Date", Lower("From"))
  {
  }

  lemma FixedApart(i: nat, j: nat)
    requires i < 8 && j < 8 && i != j
    ensures Apart(FIXED_NAMES[j], Lower(FIXED_NAMES[i]))
  {
    var a, b := FIXED_NAMES[i], FIXED_NAMES[j];
    FixedLength(i);
    FixedLength(j);
    FromAndDate();
    if |a| == |b| {
      assert (i == 0 && j == 3) || (i == 3 && j == 0);
    }
  }

  /** Each fixed field stands once among the fixed ones, and none of them is a content field. */
  lemma FixedValues(env: Env, from: string, fromName: string, to: string, subject: string, i: nat)
    requires i < 8
    ensures var fs := FixedFields(env, from, fromName, to, subject);
            Values(fs, Lower(FIXED_NAMES[i])) == [TrimLeft(fs[i].1)]
  {
    var fs := FixedFields(env, from, fromName, to, subject);
    forall j | 0 <= j < 8 && j != i ensures Apart(fs[j].0, Lower(FIXED_NAMES[i])) {
      FixedApart(i, j);
      FixedKey(env, from, fromName, to, subject, j);
    }
    FixedKey(env, from, fromName, to, subject, i);
    OnlyValue(fs, i, Lower(FIXED_NAMES[i]));
  }

  lemma FixedHoldNoContent(env: Env, from: string, fromName: string, to: string, subject: string)
    ensures var fs := FixedFields(env, from, fromName, to, subject);
            Values(fs, TYPE) == [] && Values(fs, ENCODING) == [] && Values(fs, DISPOSITION) == []
  {
    var fs := FixedFields(env, from, fromName, to, subject);
    forall j | 0 <= j < 8 ensures Apart(fs[j].0, TYPE) && Apart(fs[j].0, ENCODING) && Apart(fs[j].0, DISPOSITION) {
      FixedKey(env, from, fromName, to, subject, j);
      FixedLength(j);
      assert |TYPE| == 12 && |ENCODING| == 25 && |DISPOSITION| == 19;
    }
    NoValues(fs, TYPE);
    NoValues(fs, DISPOSITION);
    NoValues(fs, ENCODING);
  }

  lemma VersionKey()
    ensures Lower(FIXED_NAMES[5]) == VERSION
  {
    LowerWord("MIME-Version", "mime-version");
  }

  function HeadFields(env: Env, from: string, fromName: string, to: string, subject: string,
                      extra: seq<(string, string)>): seq<Field> {
    FixedFields(env, from, fromName, to, subject) + Kept(extra)
  }

  lemma HeadAre(env: Env, from: string, fromName: string, to: string, subject: string, extra: seq<(string, string)>)
    ensures var fs := HeadFields(env, from, fromName, to, subject, extra);
            AllProper(fs) && HeadLines(env, from, fromName, to, subject, extra) == FieldLines(fs)
  {
    var fixed := FixedFields(env, from, fromName, to, subject);
    FixedAre(env, from, fromName, to, subject);
    ExtraAre(extra);
    FieldLinesConcat(fixed, Kept(extra));
    forall i | 0 <= i < 8 ensures Proper(fixed[i].0) {
      FixedKey(env, from, fromName, to, subject, i);
      FixedProper(i);
    }
  }

  lemma NamesHaveNoColon()
    ensures ':' !in TYPE && ':' !in VERSION && ':' !in DISPOSITION
  {
  }

  lemma EncodingHasNoColon()
    ensures ':' !in ENCODING
  {
  }

  /** The head holds what the builder and the surviving extra headers file under a name. */
  lemma HeadValues(env: Env, from: string, fromName: string, to: string, subject: string,
                   extra: seq<(string, string)>, name: string)
    requires ':' !in name
    ensures Fields(HeadLines(env, from, fromName, to, subject, extra), name)
         == Values(FixedFields(env, from, fromName, to, subject), name) + Named(extra, name)
  {
    HeadAre(env, from, fromName, to, subject, extra);
    FieldsOf(HeadFields(env, from, fromName, to, subject, extra), name);
    ValuesConcat(FixedFields(env, from, fromName, to, subject), Kept(extra), name);
  }

  /** What the head of a message says about its content is what the extra headers say. */
  lemma HeadReads(env: Env, from: string, fromName: string, to: string, subject: string, extra: seq<(string, string)>)
    ensures var head := HeadLines(env, from, fromName, to, subject, extra);
            && ContentTypes(head) == Named(extra, TYPE)
            && Encodings(head) == Named(extra, ENCODING)
            && Fields(head, VERSION) == ["1.0"] + Named(extra, VERSION)
            && Fields(head, DISPOSITION) == Named(extra, DISPOSITION)
  {
    NamesHaveNoColon();
    EncodingHasNoColon();
    FixedHoldNoContent(env, from, fromName, to, subject);
    HeadValues(env, from, fromName, to, subject, extra, TYPE);
    HeadValues(env, from, fromName, to, subject, extra, ENCODING);
    HeadValues(env, from, fromName, to, subject, extra, VERSION);
    HeadValues(env, from, fromName, to, subject, extra, DISPOSITION);
    OneVersion(env, from, fromName, to, subject);
  }

  lemma OneVersion(env: Env, from: string, fromName: string, to: string, subject: string)
    ensures Values(FixedFields(env, from, fromName, to, subject), VERSION) == ["1.0"]
  {
    VersionKey();
    FixedValues(env, from, fromName, to, subject, 5);
  }

  lemma LowerKeepsColons(s: string)
    requires ':' !in s
    ensures ':' !in Lower(s)
  {
    forall i | 0 <= i < |s| ensures Lower(s)[i] != ':' { assert s[i] in s; }
  }

  lemma FixedIsNoContentKey(i: nat)
    requires i < 8
    ensures Apart(TYPE_KEY, Lower(FIXED_NAMES[i])) && Apart(ENCODING_KEY, Lower(FIXED_NAMES[i]))
  {
    FixedLength(i);
    assert |TYPE_KEY| == 12 && |ENCODING_KEY| == 25;
    if i == 5 { VersionKey(); }
  }

  lemma OtherName(key: string, value: string, name: string)
    requires Proper(key) && ':' !in name && Apart(key, name)
    ensures Fields([Line((key, value))], name) == [] && !Continues(Line((key, value)))
  {
    OneField(key, value, name);
    ApartDiffer(key, name);
  }

  lemma MultipartHolds(subtype: string, boundary: string, name: string)
    requires ':' !in name && Apart(TYPE_KEY, name)
    ensures Fields([MultipartLine(subtype, boundary)], name) == [] && !Continues(MultipartLine(subtype, boundary))
  {
    TypeKeyProper();
    MultipartLineIs(subtype, boundary);
    OtherName(TYPE_KEY, MultipartValue(subtype, boundary), name);
  }

  lemma NeitherHolds(a: string, b: string, name: string)
    requires Fields([a], name) == [] && Fields([b], name) == [] && !Continues(b)
    ensures Fields([a, b], name) == []
  {
    FieldsConcat([a], [b], name);
    assert [a] + [b] == [a, b];
  }

  lemma TextTypeHolds(name: string)
    requires ':' !in name && Apart(TYPE_KEY, name)
    ensures Fields([TEXT_TYPE], name) == [] && !Continues(TEXT_TYPE)
  {
    TypeKeyProper();
    TypeKeyLine("text/plain; charset=utf-8");
    OtherName(TYPE_KEY, "text/plain; charset=utf-8", name);
  }

  lemma TransferHolds(name: string)
    requires ':' !in name && Apart(ENCODING_KEY, name)
    ensures Fields([TRANSFER], name) == [] && !Continues(TRANSFER)
  {
    EncodingKeyProper();
    TransferLine();
    OtherName(ENCODING_KEY, "base64", name);
  }

  lemma TextHolds(name: string)
    requires ':' !in name && Apart(TYPE_KEY, name) && Apart(ENCODING_KEY, name)
    ensures Fields([TEXT_TYPE, TRANSFER], name) == [] && !Continues(TEXT_TYPE)
  {
    TextTypeHolds(name);
    TransferHolds(name);
    NeitherHolds(TEXT_TYPE, TRANSFER, name);
  }

  lemma TailHoldsNoFixed(env: Env, html: seq<Byte>, text: seq<Byte>, files: seq<Attachment>, i: nat)
    requires i < 8
    ensures Fields(TailHeader(env, html, text, files), Lower(FIXED_NAMES[i])) == []
    ensures !Continues(TailHeader(env, html, text, files)[0])
  {
    var name := Lower(FIXED_NAMES[i]);
    FixedProper(i);
    LowerKeepsColons(FIXED_NAMES[i]);
    FixedIsNoContentKey(i);
    MultipartHolds("mixed", MakeBoundary(env.mixed), name);
    MultipartHolds("alternative", MakeBoundary(env.alternative), name);
    TextHolds(name);
  }

  /**
    Each fixed field, From, To, Subject and the rest, stands exactly once in the header section of a
    built message if and only if no surviving extra header has its name, in any case.
    */
  lemma {:induction false} FixedFieldOnce(env: Env, from: string, fromName: string, to: string, subject: string,
                       html: seq<Byte>, text: seq<Byte>, extra: seq<(string, string)>, files: seq<Attachment>, i: nat)
    requires Steady(env) && i < 8
    ensures var lines := Lines(Unlines(MessageLines(env, from, fromName, to, subject, html, text, extra, files)));
            var name := Lower(FIXED_NAMES[i]);
            |Fields(lines[..HeaderLength(lines)], name)| == 1 <==> Named(extra, name) == []
  {
    var name := Lower(FIXED_NAMES[i]);
    HeaderIntegrity(env, from, fromName, to, subject, html, text, extra, files);
    FixedProper(i);
    LowerKeepsColons(FIXED_NAMES[i]);
    HeadValues(env, from, fromName, to, subject, extra, name);
    FixedValues(env, from, fromName, to, subject, i);
    TailHoldsNoFixed(env, html, text, files, i);
    FieldsConcat(HeadLines(env, from, fromName, to, subject, extra), TailHeader(env, html, text, files), name);
  }

  // Reading one multipart type line

  lemma LowerMulti()
    ensures Lower("multi") == "multi"
  {
  }

  lemma LowerPart()
    ensures Lower("part/") == "part/"
  {
  }

  lemma LowerMultipart()
    ensures Lower("multipart/") == "multipart/"
  {
    LowerMulti();
    LowerPart();
    LowerConcat("multi", "part/");
    assert "multipart/" == "multi" + "part/";
  }

  function MultipartValue(subtype: string, boundary: string): string {
    "multipart/" + subtype + "; boundary=\"" + boundary + "\""
  }

  lemma ReadsSubtype(subtype: string, boundary: string)
    requires ';' !in subtype
    ensures var value := MultipartValue(subtype, boundary); IsMultipart(value) && Subtype(value) == subtype
  {
    MultipartRest(subtype, boundary);
    LowerMultipart();
    UpToStops(subtype, ';', " boundary=\"" + boundary + "\"");
  }

  lemma ReadsBoundary(subtype: string, boundary: string)
    requires Quotable(boundary) && 'b' !in subtype
    ensures Boundary(MultipartValue(subtype, boundary)) == Some(boundary)
  {
    MultipartParam(subtype, boundary);
    NoB(subtype);
    AfterFinds("multipart/" + subtype + "; ", "boundary=", "\"" + boundary + "\"");
    assert "boundary" + "=" == "boundary=";
    assert ("\"" + boundary + "\"")[1..] == boundary + "\"";
    UnquoteIff(boundary);
  }

  lemma NoB(subtype: string)
    requires 'b' !in subtype
    ensures 'b' !in "multipart/" + subtype + "; "
  {
  }

  /** The value the builder writes is read back as the subtype and the boundary. */
  lemma MultipartReads(subtype: string, boundary: string)
    requires Quotable(boundary) && ';' !in subtype && 'b' !in subtype
    ensures var value := MultipartValue(subtype, boundary);
            IsMultipart(value) && Subtype(value) == subtype && Boundary(value) == Some(boundary) && TrimLeft(value) == value
  {
    ReadsSubtype(subtype, boundary);
    ReadsBoundary(subtype, boundary);
    assert MultipartValue(subtype, boundary)[0] == 'm';
  }

  lemma MultipartLineIs(subtype: string, boundary: string)
    ensures MultipartLine(subtype, boundary) == Line((TYPE_KEY, MultipartValue(subtype, boundary)))
  {
    var a, b := "Content-Type: ", "multipart/";
    TypeKeyLine(MultipartValue(subtype, boundary));
    assert "Content-Type: multipart/" == a + b;
    assert a + b + subtype + "; boundary=\"" + boundary + "\"" == a + (b + subtype + "; boundary=\"" + boundary + "\"");
  }

  lemma MultipartRest(subtype: string, boundary: string)
    ensures var value := MultipartValue(subtype, boundary);
            value[..10] == "multipart/" && value[10..] == subtype + [';'] + (" boundary=\"" + boundary + "\"")
  {
    assert "; boundary=\"" == [';'] + " boundary=\"";
    FiveParts("multipart/", subtype, [';'], " boundary=\"", boundary, "\"");
    assert |"multipart/"| == 10;
  }

  lemma MultipartParam(subtype: string, boundary: string)
    ensures MultipartValue(subtype, boundary) == "multipart/" + subtype + "; " + "boundary=" + ("\"" + boundary + "\"")
  {
    assert "; boundary=\"" == "; " + ("boundary=" + "\"");
    FiveParts("multipart/", subtype, "; ", "boundary=" + "\"", boundary, "\"");
    Regroup("boundary=", "\"", boundary + "\"");
    Regroup("\"", boundary, "\"");
    Regroup("multipart/" + subtype + "; ", "boundary=", "\"" + boundary + "\"");
  }

  lemma FiveParts(a: string, b: string, c: string, d: string, e: string, f: string)
    ensures (a + b + (c + d) + e + f)[..|a|] == a
    ensures (a + b + (c + d) + e + f)[|a|..] == b + c + (d + e + f)
    ensures a + b + (c + d) + e + f == a + b + c + (d + (e + f))
  {
  }

  // The content fields of the parts

  lemma KeysApart()
    ensures Apart(TYPE_KEY, ENCODING) && Apart(TYPE_KEY, DISPOSITION) && Apart(ENCODING_KEY, TYPE)
    ensures Apart(ENCODING_KEY, DISPOSITION) && Apart(DISPOSITION_KEY, TYPE) && Apart(DISPOSITION_KEY, ENCODING)
    ensures Apart(TYPE_KEY, VERSION) && Apart(ENCODING_KEY, VERSION)
  {
    assert |TYPE_KEY| == |TYPE| == |VERSION| == 12;
    assert |ENCODING_KEY| == |ENCODING| == 25;
    assert |DISPOSITION_KEY| == |DISPOSITION| == 19;
    assert LowerChar(TYPE_KEY[0]) == 'c' && VERSION[0] == 'm';
  }

  lemma OneField(key: string, value: string, name: string)
    requires Proper(key) && ':' !in name
    ensures Fields([Line((key, value))], name) == if Lower(key) == name then [TrimLeft(value)] else []
    ensures !Continues(Line((key, value))) && Line((key, value)) != ""
  {
    var fs := [(key, value)];
    ProperLine(fs[0]);
    FieldsOf(fs, name);
    assert fs[1..] == [] && FieldLines(fs) == [Line(fs[0])];
  }

  lemma TypeKeyReads(value: string, name: string)
    requires name == TYPE || name == ENCODING || name == VERSION || name == DISPOSITION
    ensures Fields([Line((TYPE_KEY, value))], name) == if name == TYPE then [TrimLeft(value)] else []
    ensures !Continues(Line((TYPE_KEY, value))) && Line((TYPE_KEY, value)) != ""
  {
    NamesHaveNoColon();
    EncodingHasNoColon();
    TypeKeyProper();
    OneField(TYPE_KEY, value, name);
    LowerTypeKey();
    KeysApart();
  }

  /** A header of one type line says that and nothing else. */
  lemma TypeReads(value: string)
    ensures var header := ["Content-Type: " + value];
            && ContentTypes(header) == [TrimLeft(value)] && Encodings(header) == [] && Unmarked(header)
            && !Continues(header[0]) && header[0] != ""
  {
    TypeKeyLine(value);
    TypeKeyReads(value, TYPE);
    TypeKeyReads(value, ENCODING);
    TypeKeyReads(value, VERSION);
    TypeKeyReads(value, DISPOSITION);
    NamesDiffer();
  }

  lemma NamesDiffer()
    ensures TYPE != ENCODING && TYPE != VERSION && TYPE != DISPOSITION && ENCODING != VERSION && ENCODING != DISPOSITION
    ensures DISPOSITION != VERSION
  {
    assert |TYPE| == |VERSION| == 12 && TYPE[0] == 'c' && VERSION[0] == 'm';
    assert |ENCODING| == 25 && |DISPOSITION| == 19;
  }

  lemma TransferKeyReads(name: string)
    requires name == TYPE || name == ENCODING || name == VERSION || name == DISPOSITION
    ensures Fields([TRANSFER], name) == if name == ENCODING then ["base64"] else []
    ensures !Continues(TRANSFER) && TRANSFER != ""
  {
    NamesHaveNoColon();
    EncodingHasNoColon();
    EncodingKeyProper();
    TransferLine();
    OneField(ENCODING_KEY, "base64", name);
    LowerEncodingKey();
    KeysApart();
    Base64Word();
  }

  lemma TransferReads()
    ensures ContentTypes([TRANSFER]) == [] && Encodings([TRANSFER]) == ["base64"]
    ensures Unmarked([TRANSFER])
    ensures !Continues(TRANSFER) && TRANSFER != ""
  {
    TransferKeyReads(TYPE);
    TransferKeyReads(ENCODING);
    TransferKeyReads(DISPOSITION);
    TransferKeyReads(VERSION);
    NamesDiffer();
  }

  lemma DispositionKeyReads(value: string, name: string)
    requires name == TYPE || name == ENCODING || name == DISPOSITION
    ensures Fields([Line((DISPOSITION_KEY, value))], name) == if name == DISPOSITION then [TrimLeft(value)] else []
    ensures !Continues(Line((DISPOSITION_KEY, value))) && Line((DISPOSITION_KEY, value)) != ""
  {
    NamesHaveNoColon();
    EncodingHasNoColon();
    DispositionKeyProper();
    OneField(DISPOSITION_KEY, value, name);
    LowerDispositionKey();
    KeysApart();
  }

  lemma NothingToTrim(rest: string)
    ensures TrimLeft("attachment; filename=\"" + rest) == "attachment; filename=\"" + rest
  {
    assert ("attachment; filename=\"" + rest)[0] == 'a';
  }

  lemma AttachedReads(rest: string)
    ensures var header := [ATTACHED + rest];
            && ContentTypes(header) == [] && Encodings(header) == []
            && Fields(header, DISPOSITION) == ["attachment; filename=\"" + rest]
            && !Continues(header[0]) && header[0] != ""
  {
    var value := "attachment; filename=\"" + rest;
    AttachedLine(rest);
    NothingToTrim(rest);
    DispositionKeyReads(value, TYPE);
    DispositionKeyReads(value, ENCODING);
    DispositionKeyReads(value, DISPOSITION);
    NamesDiffer();
  }

  /** The builder's transfer line below other header lines. */
  lemma AboveTransfer(a: seq<string>)
    ensures ContentTypes(a + [TRANSFER]) == ContentTypes(a) && Encodings(a + [TRANSFER]) == Encodings(a) + ["base64"]
    ensures SameMarks(a + [TRANSFER], a)
  {
    TransferReads();
    FieldsConcat(a, [TRANSFER], TYPE);
    FieldsConcat(a, [TRANSFER], ENCODING);
    MarksKept(a, [TRANSFER]);
    assert ContentTypes(a) + [] == ContentTypes(a);
  }

  /** A type line above the builder's transfer line. */
  lemma LeafHeaderReads(value: string)
    ensures var header := ["Content-Type: " + value, TRANSFER];
            && ContentTypes(header) == [TrimLeft(value)] && Encodings(header) == ["base64"] && Unmarked(header)
            && !Continues(header[0]) && NoEmptyLine(header)
  {
    TypeReads(value);
    AboveTransfer(["Content-Type: " + value]);
    TransferReads();
    assert ["Content-Type: " + value] + [TRANSFER] == ["Content-Type: " + value, TRANSFER];
  }

  /** A multipart line under any header that names no content type. */
  lemma MultipartHeaderReads(subtype: string, boundary: string)
    requires Quotable(boundary) && ';' !in subtype && 'b' !in subtype
    ensures var header := [MultipartLine(subtype, boundary)];
            && ContentTypes(header) == [MultipartValue(subtype, boundary)] && Encodings(header) == []
            && Unmarked(header) && !Continues(header[0]) && header[0] != ""
  {
    var value := MultipartValue(subtype, boundary);
    MultipartReads(subtype, boundary);
    MultipartLineIs(subtype, boundary);
    TypeKeyLine(value);
    TypeReads(value);
  }
}
