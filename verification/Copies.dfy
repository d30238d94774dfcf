/**
  Why the round trip sets copies aside: a type that guesses the delimiter and writes its whole part
  out reads back, although it holds the delimiter.
  */
module Copies {
  import opened Wrappers
  import opened Base64
  import opened Mime
  import opened Message
  import opened HeaderBlock
  import opened FieldReading
  import opened RoundTrip
  import opened FileParts
  import opened ParseBack

  function Closing(env: Env): string { "--" + MakeBoundary(env.mixed) + "--" }

  function NameSuffix(env: Env, att: Attachment): string { "; name=\"" + NameOf(env, att) + "\"" }

  function Whole(env: Env, att: Attachment): string { Unlines(FileLines(env, att)) + CRLF + Closing(env) }

  /** The same file under a type that writes the whole part out, and then closes the message. */
  function Copying(env: Env, att: Attachment): Attachment {
    att.(contentType := if |Whole(env, att)| < 14 then "" else Whole(env, att)[14..])
  }

  lemma Opens(p: string, v: string, rest: string)
    ensures (p + v + rest)[..|p|] == p
  {
  }

  lemma WholeOpens(env: Env, att: Attachment)
    ensures |Whole(env, att)| > 14 && Whole(env, att)[..14] == "Content-Type: "
  {
    var lines := FileLines(env, att);
    var value := TypeOf(att) + ("; name=\"" + NameOf(env, att) + "\"");
    var rest := CRLF + Unlines(lines[1..]) + CRLF + Closing(env);
    FileTypeLine(TypeOf(att), NameOf(env, att));
    assert Unlines(lines) == lines[0] + CRLF + Unlines(lines[1..]);
    assert Whole(env, att) == "Content-Type: " + value + rest;
    assert |"Content-Type: "| == 14;
    Opens("Content-Type: ", value, rest);
  }

  lemma CopyText(env: Env, att: Attachment)
    ensures TypeText(env, Copying(env, att)) == Unlines(FileLines(env, att)) + (CRLF + (Closing(env) + NameSuffix(env, att)))
  {
    var whole := Whole(env, att);
    WholeOpens(env, att);
    Rejoins(whole, "Content-Type: ");
    CopyType(env, att);
    Respread("Content-Type: ", whole[14..], "; name=\"", NameOf(env, att), "\"");
    Tail(Unlines(FileLines(env, att)), CRLF, Closing(env), NameSuffix(env, att));
  }

  lemma CopyType(env: Env, att: Attachment)
    ensures |Whole(env, att)| > 14 && TypeOf(Copying(env, att)) == Whole(env, att)[14..]
    ensures NameOf(env, Copying(env, att)) == NameOf(env, att)
  {
    WholeOpens(env, att);
  }

  lemma Rejoins(whole: string, p: string)
    requires |p| <= |whole| && whole[..|p|] == p
    ensures p + whole[|p|..] == whole
  {
  }

  lemma Respread(a: string, b: string, c: string, d: string, e: string)
    ensures a + b + c + d + e == (a + b) + (c + d + e)
  {
  }

  lemma Tail(a: string, b: string, c: string, d: string)
    ensures (a + b + c) + d == a + (b + (c + d))
  {
  }

  lemma CopyLines(env: Env, att: Attachment)
    requires Sound(env) && OneLine(att.contentType)
    ensures TypeLines(env, Copying(env, att)) == FileLines(env, att) + [""] + [Closing(env) + NameSuffix(env, att)]
    ensures FileLines(env, att) == RealFile(env, att)
  {
    var close := Closing(env) + NameSuffix(env, att);
    CopyText(env, att);
    FileHeaderOneLine(env, att);
    LeafOneLine(FileHeader(env, att), att.content);
    LinesOfPrefix(FileLines(env, att), CRLF + close);
    LinesOfText("", close);
    assert "" + CRLF + close == CRLF + close && Lines("") == [""];
    BoundaryPlain(env.mixed);
    OneLineThree("--", MakeBoundary(env.mixed), "--");
    OneLineThree("; name=\"", NameOf(env, att), "\"");
    OneLineConcat(Closing(env), NameSuffix(env, att));
    OneLineAlone(close);
    Regroup(FileLines(env, att), [""], [close]);
    FileBroken(env, att);
    Unbreakable(FileLines(env, att));
  }

  lemma CollectClosing(closing: string, epilogue: seq<string>, boundary: string)
    requires Closes(closing, boundary)
    ensures Collect([closing] + epilogue, boundary) == Some([[]])
  {
    assert ([closing] + epilogue)[0] == closing;
  }

  lemma LongerEmpty(part: seq<string>, parts: seq<seq<string>>)
    ensures Longer(part, [[]] + parts) == [part] + parts
  {
    assert [part] + parts == [part] + ([[]] + parts)[1..];
    assert part + [] == part;
  }

  lemma LongerOnly(part: seq<string>)
    ensures Longer(part, [[]]) == [part]
  {
    LongerEmpty(part, []);
  }

  lemma LastPart(part: seq<string>, tail: seq<string>, boundary: string)
    requires NoDelimiter(part, boundary) && Collect(tail, boundary) == Some([[]])
    ensures Collect(part + tail, boundary) == Some([part])
  {
    CollectPart(part, tail, boundary);
    LongerOnly(part);
  }

  lemma PartBefore(part: seq<string>, tail: seq<string>, boundary: string, parts: seq<seq<string>>)
    requires NoDelimiter(part, boundary) && Collect(tail, boundary) == Some(parts)
    ensures Collect(part + (["--" + boundary] + tail), boundary) == Some([part] + parts)
  {
    CollectDelimiter(tail, boundary);
    CollectPart(part, ["--" + boundary] + tail, boundary);
    LongerEmpty(part, parts);
  }

  /** A body of two parts that some closing line ends, whatever comes after it. */
  lemma TwoPartsSplit(first: seq<string>, second: seq<string>, closing: string, rest: seq<string>, boundary: string)
    requires NoDelimiter(first, boundary) && NoDelimiter(second, boundary) && Closes(closing, boundary)
    ensures Split(["--" + boundary] + (first + (["--" + boundary] + (second + ([closing] + rest)))), boundary)
         == Some([first, second])
  {
    var tail := second + ([closing] + rest);
    CollectClosing(closing, rest, boundary);
    LastPart(second, [closing] + rest, boundary);
    PartBefore(first, tail, boundary, [second]);
    SplitOpens(first + (["--" + boundary] + tail), boundary);
    Pair(first, second);
  }

  lemma Pair(a: seq<string>, b: seq<string>)
    ensures [a] + [b] == [a, b]
  {
  }

  lemma OneFile(env: Env, html: seq<Byte>, text: seq<Byte>, att: Attachment)
    ensures AllParts(env, html, text, [att])
         == [BodyLines(MakeBoundary(env.alternative), html, text) + [""], RealFile(env, att) + [""]]
  {
    var file := [RealFile(env, att) + [""]];
    assert [att][1..] == [];
    assert PartsOf(env, [att]) == file + PartsOf(env, []);
    assert PartsOf(env, [att]) == file;
  }

  function BelowType(env: Env, att: Attachment): seq<string> {
    FileSuffix(env, Copying(env, att)) + [""] + Chunks(Encode(att.content)) + [""]
  }

  lemma CopyPart(env: Env, att: Attachment)
    requires Sound(env) && OneLine(att.contentType)
    ensures RealFile(env, Copying(env, att)) + [""]
         == (RealFile(env, att) + [""]) + ([Closing(env) + NameSuffix(env, att)] + BelowType(env, att))
  {
    var copy, above := Copying(env, att), RealFile(env, att) + [""];
    CopyLines(env, att);
    Rebracket(TypeLines(env, copy), FileSuffix(env, copy), Chunks(Encode(att.content)));
    Regroup(above, [Closing(env) + NameSuffix(env, att)], BelowType(env, att));
  }

  lemma TwoPartBody(d: string, first: seq<string>, above: seq<string>, below: seq<string>, close: string)
    ensures [d] + (first + [d] + ((above + below) + [close])) + [""]
         == [d] + (first + ([d] + (above + (below + [close] + [""]))))
  {
  }

  lemma CopyBody(env: Env, html: seq<Byte>, text: seq<Byte>, att: Attachment)
    requires Sound(env) && OneLine(att.contentType)
    ensures var d, body := "--" + MakeBoundary(env.mixed), BodyLines(MakeBoundary(env.alternative), html, text) + [""];
            MixedBody(env, html, text, [Copying(env, att)])
            == [d] + (body + ([d] + ((RealFile(env, att) + [""]) + ([Closing(env) + NameSuffix(env, att)] + Rest(env, att)))))
  {
    var d, body := "--" + MakeBoundary(env.mixed), BodyLines(MakeBoundary(env.alternative), html, text) + [""];
    var above, below := RealFile(env, att) + [""], [Closing(env) + NameSuffix(env, att)] + BelowType(env, att);
    OneFile(env, html, text, Copying(env, att));
    CopyPart(env, att);
    TwoParts(body, above + below, MakeBoundary(env.mixed));
    TwoPartBody(d, body, above, below, d + "--");
    RestGroups(Closing(env) + NameSuffix(env, att), BelowType(env, att), d + "--");
  }

  function Rest(env: Env, att: Attachment): seq<string> {
    BelowType(env, att) + ["--" + MakeBoundary(env.mixed) + "--"] + [""]
  }

  lemma RestGroups(closing: string, below: seq<string>, close: string)
    ensures ([closing] + below) + [close] + [""] == [closing] + (below + [close] + [""])
  {
  }

  /** Such a message splits into exactly the parts of the honest one, although its type holds the delimiter. */
  lemma {:induction false} CopySplits(env: Env, html: seq<Byte>, text: seq<Byte>, att: Attachment)
    requires Sound(env) && OneLine(att.contentType) && Undelimited(env, att)
    ensures Split(MixedBody(env, html, text, [Copying(env, att)]), MakeBoundary(env.mixed))
         == Some(AllParts(env, html, text, [att]))
  {
    var mixed, closing := MakeBoundary(env.mixed), Closing(env) + NameSuffix(env, att);
    var body, part := BodyLines(MakeBoundary(env.alternative), html, text) + [""], RealFile(env, att) + [""];
    CopyBody(env, html, text, att);
    ClosingCloses(env, att);
    PartHasNoDelimiter(env, html, text, [], 0);
    FileHasNoDelimiter(env, att, mixed);
    TwoPartsSplit(body, part, closing, Rest(env, att), mixed);
    OneFile(env, html, text, att);
  }

  lemma ClosingCloses(env: Env, att: Attachment)
    ensures Closes(Closing(env) + NameSuffix(env, att), MakeBoundary(env.mixed))
    ensures Delimits(Closing(env) + NameSuffix(env, att), MakeBoundary(env.mixed))
  {
    ClosesDelimits(Closing(env) + NameSuffix(env, att), MakeBoundary(env.mixed));
  }

  lemma CopyHolds(env: Env, att: Attachment)
    requires Sound(env) && OneLine(att.contentType) && Undelimited(env, att)
    ensures !Undelimited(env, Copying(env, att))
  {
    var mixed, own, above := MakeBoundary(env.mixed), TypeLines(env, Copying(env, att)), RealFile(env, att) + [""];
    CopyLines(env, att);
    ClosingCloses(env, att);
    FileHasNoDelimiter(env, att, mixed);
    assert own[|above|] == Closing(env) + NameSuffix(env, att) && own[..|above|] == above;
    DelimiterThere(own, |above|, mixed);
  }

  /** The parts of the honest message show what it holds. */
  lemma HonestShown(env: Env, html: seq<Byte>, text: seq<Byte>, att: Attachment, bound: nat)
    requires Sound(env) && FileReadable(env, att)
    requires Bounded(Some(AllParts(env, html, text, [att])), bound)
    ensures var got := Some(AllParts(env, html, text, [att]));
            && Shown(got, bound, FilesOf(env, [att]))
            && ParseParts(got.value, bound).value[0] == BodyEntity([], MakeBoundary(env.alternative), html, text)
  {
    OneFile(env, html, text, att);
    BodyPartParses(env, html, text);
    MixedPartsShow(AllParts(env, html, text, [att]), bound, BodyEntity([], MakeBoundary(env.alternative), html, text),
                   FilesOf(env, [att]));
    FilePartsShow(env, html, text, [att]);
  }

  lemma ReadableHead(env: Env, from: string, fromName: string, to: string, subject: string,
                     html: seq<Byte>, text: seq<Byte>, extra: seq<(string, string)>, files: seq<Attachment>)
    requires Sound(env) && Readable(env, html, text, extra, files)
    ensures var head := HeadLines(env, from, fromName, to, subject, extra);
            && NoEmptyLine(head) && ContentTypes(head) == [] && Fits(Encodings(head), IsLeaf(env, html, text, files))
            && Versioned(head) && Displayed(Fields(head, DISPOSITION))
  {
    HeadOneLine(env, from, fromName, to, subject, extra);
    HeadReads(env, from, fromName, to, subject, extra);
    VersionOnce(Named(extra, VERSION));
  }

  /**
    The message with the copying type reads back whenever the honest one does, and is not Readable.
    So without setting copies aside the condition would not be necessary.
    */
  lemma {:induction false} CopyReads(env: Env, from: string, fromName: string, to: string, subject: string,
                  html: seq<Byte>, text: seq<Byte>, extra: seq<(string, string)>, att: Attachment)
    requires Sound(env) && OneLine(att.contentType) && Readable(env, html, text, extra, [att])
    ensures var copy := Copying(env, att);
            && Read(Unlines(MessageLines(env, from, fromName, to, subject, html, text, extra, [copy])))
               == Some(MailOf(env, html, text, [copy]))
            && !Readable(env, html, text, extra, [copy])
  {
    var copy, mixed, head := Copying(env, att), MakeBoundary(env.mixed), HeadLines(env, from, fromName, to, subject, extra);
    assert FileReadable(env, [att][0]) && Undelimited(env, [att][0]);
    CopyHolds(env, att);
    assert !Undelimited(env, [copy][0]);
    MessageBroken(env, from, fromName, to, subject, html, text, extra, [copy]);
    ReadableHead(env, from, fromName, to, subject, html, text, extra, [att]);
    CopyUnderHead(head, env, html, text, att);
  }

  lemma CopyUnderHead(head: seq<string>, env: Env, html: seq<Byte>, text: seq<Byte>, att: Attachment)
    requires Sound(env) && NoEmptyLine(head) && ContentTypes(head) == [] && Fits(Encodings(head), false)
    requires OneLine(att.contentType) && FileReadable(env, att) && Undelimited(env, att)
    requires html != [] ==> TextOf(env, html, text) != []
    ensures var e := ParseEntity(head + RealTail(env, html, text, [Copying(env, att)]) + [""]);
            && e.Some? && SameMarks(e.value.header, head)
            && ReadMail(e.value) == Some(MailOf(env, html, text, [Copying(env, att)]))
  {
    var mixed := MakeBoundary(env.mixed);
    BoundaryPlain(env.mixed);
    SubtypesPlain();
    MultipartHead(head, "mixed", mixed);
    MixedLines(head, env, html, text, [Copying(env, att)]);
    CopyMail(head + [MultipartLine("mixed", mixed)], env, html, text, TextOf(env, html, text), att);
  }

  lemma CopyMail(header: seq<string>, env: Env, html: seq<Byte>, text: seq<Byte>, sent: seq<Byte>, att: Attachment)
    requires Sound(env) && OneLine(att.contentType) && FileReadable(env, att) && Undelimited(env, att)
    requires sent == TextOf(env, html, text) && (html != [] ==> sent != [])
    requires NoEmptyLine(header) && ContentTypes(header) == [MultipartValue("mixed", MakeBoundary(env.mixed))]
    requires Fits(Encodings(header), false)
    ensures var e := ParseEntity(header + [""] + MixedBody(env, html, sent, [Copying(env, att)]));
            && e.Some? && e.value.header == header
            && ReadMail(e.value) == Some(MailOf(env, html, text, [Copying(env, att)]))
  {
    var copy := Copying(env, att);
    var body := MixedBody(env, html, sent, [copy]);
    var bound, got := |header + [""] + body|, Split(body, MakeBoundary(env.mixed));
    MixedParses(header, env, body);
    CopySplits(env, html, sent, att);
    HonestShown(env, html, sent, att, bound);
    SameFiles(env, att);
    BodyPartParses(env, html, sent);
    TextBeside(env, html, text, [copy]);
    MixedShown(header, got, bound, ParseEntity(header + [""] + body),
               BodyEntity([], MakeBoundary(env.alternative), html, sent), sent,
               if Alternative(html, sent) then Some(html) else None, MailOf(env, html, text, [copy]));
  }

  lemma SameFiles(env: Env, att: Attachment)
    ensures FilesOf(env, [Copying(env, att)]) == FilesOf(env, [att])
  {
    assert FilesOf(env, [Copying(env, att)])[0] == FilesOf(env, [att])[0];
  }
}
