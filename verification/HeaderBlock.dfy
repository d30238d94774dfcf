/** The header section of a built message, and the fact that every written line is one line. */
module HeaderBlock {
  import opened Base64
  import opened Mime
  import opened Message

  /** What is assumed of the libraries: encoded words and domains stay on one line. */
  ghost predicate Steady(env: Env) {
    && (forall s :: OneLine(env.qencode(s)))
    && (forall s :: OneLine(s) ==> OneLine(env.domain(s)))
    && OneLine(env.date) && OneLine(env.unique)
  }

  /** And of the random source: 16 bytes for each boundary, which differ. */
  ghost predicate Sound(env: Env) {
    Steady(env) && |env.mixed| == |env.alternative| == 16 && env.mixed != env.alternative
  }

  /** The content types are not sanitised by the builder, so this is asked of the caller. */
  predicate OneLineTypes(files: seq<Attachment>) { forall i :: 0 <= i < |files| ==> OneLine(files[i].contentType) }

  predicate AllOneLine(lines: seq<string>) { forall i :: 0 <= i < |lines| ==> OneLine(lines[i]) }

  // Every written line is one line

  lemma {:induction false} StripOneLine(s: string)
    ensures OneLine(Strip(s)) && '\0' !in Strip(s)
  {
    if s != "" { StripOneLine(s[1..]); }
  }

  lemma {:induction false} HexPlain(bytes: seq<Byte>)
    ensures |Hex(bytes)| == 2 * |bytes|
    ensures forall c :: c in Hex(bytes) ==> '0' <= c <= '9' || 'a' <= c <= 'f'
  {
    if bytes != [] { HexPlain(bytes[1..]); }
  }

  lemma BoundaryPlain(random: seq<Byte>)
    ensures var b := MakeBoundary(random); |b| == 11 + 2 * |random| && OneLine(b) && Quotable(b)
    ensures MakeBoundary(random)[11..] == Hex(random)
  {
    var prefix := "----=_Part_";
    HexPlain(random);
    assert |prefix| == 11;
  }

  lemma {:induction false} HexInjective(a: seq<Byte>, b: seq<Byte>)
    requires |a| == |b| && Hex(a) == Hex(b)
    ensures a == b
  {
    if a != [] {
      var x, y := Hex(a), Hex(b);
      assert x[0] == y[0] && x[1] == y[1];
      assert Hex(a[1..]) == x[2..] == y[2..] == Hex(b[1..]);
      HexInjective(a[1..], b[1..]);
      assert a == [a[0]] + a[1..] && b == [b[0]] + b[1..];
    }
  }

  lemma BoundariesDiffer(env: Env)
    requires Sound(env)
    ensures MakeBoundary(env.mixed) != MakeBoundary(env.alternative)
    ensures |MakeBoundary(env.mixed)| == |MakeBoundary(env.alternative)|
  {
    BoundaryPlain(env.mixed);
    BoundaryPlain(env.alternative);
    if MakeBoundary(env.mixed) == MakeBoundary(env.alternative) {
      HexInjective(env.mixed, env.alternative);
    }
  }

  lemma ChunksOneLine(content: seq<Byte>)
    ensures AllOneLine(Chunks(Encode(content)))
  {
    EncodeShape(content);
    forall i | 0 <= i < |Chunks(Encode(content))| ensures OneLine(Chunks(Encode(content))[i]) {
      ChunkLines(Encode(content), i);
    }
  }

  lemma OneLineConcat(a: string, b: string)
    ensures OneLine(a + b) <==> OneLine(a) && OneLine(b)
  {
  }

  lemma OneLineThree(a: string, b: string, c: string)
    requires OneLine(a) && OneLine(b) && OneLine(c)
    ensures OneLine(a + b + c)
  {
  }

  // The literals, one at a time: unfolding a long one is what costs

  lemma TextTypeOneLine() ensures OneLine(TEXT_TYPE) {}
  lemma HtmlTypeOneLine() ensures OneLine(HTML_TYPE) {}
  lemma TransferOneLine() ensures OneLine(TRANSFER) {}
  lemma DispositionOneLine() ensures OneLine(ATTACHED) {}
  lemma UnsubscribeOneLine() ensures OneLine("List-Unsubscribe: <mailto:unsubscribe@") {}
  lemma SubjectOneLine() ensures OneLine("?subject=unsubscribe>") {}
  lemma PostOneLine() ensures OneLine("List-Unsubscribe-Post: " + "List-Unsubscribe=One-Click") {
    OneLineConcat("List-Unsubscribe-Post: ", "List-Unsubscribe=One-Click");
  }

  /** The first four fixed lines carry the caller's values. */
  lemma AddressLines(env: Env, from: string, fromName: string, to: string, subject: string, i: nat)
    requires Steady(env) && i < 4
    ensures OneLine(FixedLines(env, from, fromName, to, subject)[i]) && FixedLines(env, from, fromName, to, subject)[i] != ""
  {
    StripOneLine(from);
    StripOneLine(fromName);
    StripOneLine(to);
    if i == 0 {
      OneLineThree(env.qencode(Strip(fromName)), " <", Strip(from));
      OneLineConcat(env.qencode(Strip(fromName)) + " <" + Strip(from), ">");
      OneLineConcat("From: ", env.qencode(Strip(fromName)) + " <" + Strip(from) + ">");
      OneLineConcat("From: ", Strip(from));
    } else if i == 1 {
      OneLineConcat("To: ", Strip(to));
    } else if i == 2 {
      OneLineConcat("Subject: ", env.qencode(Strip(subject)));
    } else {
      OneLineConcat("Date: ", env.date);
    }
  }

  lemma OtherLines(env: Env, from: string, fromName: string, to: string, subject: string, i: nat)
    requires Steady(env) && 4 <= i < 8
    ensures OneLine(FixedLines(env, from, fromName, to, subject)[i]) && FixedLines(env, from, fromName, to, subject)[i] != ""
  {
    StripOneLine(from);
    var domain := env.domain(Strip(from));
    if i == 4 {
      OneLineThree("Message-ID: <", env.unique, "@");
      OneLineThree("Message-ID: <" + env.unique + "@", domain, ">");
    } else if i == 7 {
      PostOneLine();
    } else if i == 6 {
      UnsubscribeOneLine();
      SubjectOneLine();
      OneLineThree("List-Unsubscribe: <mailto:unsubscribe@", domain, "?subject=unsubscribe>");
    }
  }

  lemma FixedOneLine(env: Env, from: string, fromName: string, to: string, subject: string)
    requires Steady(env)
    ensures AllOneLine(FixedLines(env, from, fromName, to, subject))
    ensures NoEmptyLine(FixedLines(env, from, fromName, to, subject))
  {
    var lines := FixedLines(env, from, fromName, to, subject);
    forall i | 0 <= i < |lines| ensures OneLine(lines[i]) && lines[i] != "" {
      if i < 4 { AddressLines(env, from, fromName, to, subject, i); } else { OtherLines(env, from, fromName, to, subject, i); }
    }
  }

  lemma {:induction false} ExtraOneLine(extra: seq<(string, string)>)
    ensures AllOneLine(ExtraLines(extra)) && NoEmptyLine(ExtraLines(extra))
  {
    if extra != [] {
      StripOneLine(extra[0].0);
      StripOneLine(extra[0].1);
      ExtraOneLine(extra[1..]);
    }
  }

  lemma HeadOneLine(env: Env, from: string, fromName: string, to: string, subject: string, extra: seq<(string, string)>)
    requires Steady(env)
    ensures AllOneLine(HeadLines(env, from, fromName, to, subject, extra))
    ensures NoEmptyLine(HeadLines(env, from, fromName, to, subject, extra))
  {
    FixedOneLine(env, from, fromName, to, subject);
    ExtraOneLine(extra);
  }

  lemma AllConcat(a: seq<string>, b: seq<string>)
    requires AllOneLine(a) && AllOneLine(b)
    ensures AllOneLine(a + b)
  {
  }

  lemma LeafOneLine(header: seq<string>, content: seq<Byte>)
    requires AllOneLine(header)
    ensures AllOneLine(LeafLines(header, content))
  {
    ChunksOneLine(content);
    AllConcat(header + [""], Chunks(Encode(content)));
  }

  lemma DelimiterOneLine(boundary: string)
    requires OneLine(boundary)
    ensures AllOneLine(["", "--" + boundary]) && AllOneLine(["", "--" + boundary + "--"])
  {
    OneLineConcat("--", boundary);
    OneLineConcat("--" + boundary, "--");
  }

  lemma MultipartOneLine(subtype: string, boundary: string)
    requires OneLine(boundary) && OneLine(subtype)
    ensures OneLine(MultipartLine(subtype, boundary))
  {
    OneLineThree("Content-Type: multipart/", subtype, "; boundary=\"");
    OneLineThree("Content-Type: multipart/" + subtype + "; boundary=\"", boundary, "\"");
  }

  lemma BodyOneLine(boundary: string, html: seq<Byte>, text: seq<Byte>)
    requires OneLine(boundary)
    ensures AllOneLine(BodyLines(boundary, html, text))
  {
    TextTypeOneLine();
    HtmlTypeOneLine();
    TransferOneLine();
    LeafOneLine([TEXT_TYPE, TRANSFER], text);
    LeafOneLine([HTML_TYPE, TRANSFER], html);
    DelimiterOneLine(boundary);
    MultipartOneLine("alternative", boundary);
    if Alternative(html, text) {
      var opening := [MultipartLine("alternative", boundary), "", "--" + boundary];
      assert AllOneLine(opening);
      AllConcat(opening, LeafLines([TEXT_TYPE, TRANSFER], text));
      AllConcat(opening + LeafLines([TEXT_TYPE, TRANSFER], text), ["", "--" + boundary]);
      AllConcat(opening + LeafLines([TEXT_TYPE, TRANSFER], text) + ["", "--" + boundary], LeafLines([HTML_TYPE, TRANSFER], html));
    }
  }

  lemma FileHeaderOneLine(env: Env, att: Attachment)
    requires Steady(env) && OneLine(att.contentType)
    ensures AllOneLine(FileHeader(env, att)) && NoEmptyLine(FileHeader(env, att))
  {
    var name := env.qencode(att.filename);
    TransferOneLine();
    DispositionOneLine();
    OneLineThree("Content-Type: ", TypeOf(att), "; name=\"");
    OneLineThree("Content-Type: " + TypeOf(att) + "; name=\"", name, "\"");
    OneLineThree(ATTACHED, name, "\"");
  }

  lemma {:induction false} FilesOneLine(env: Env, boundary: string, files: seq<Attachment>)
    requires Steady(env) && OneLine(boundary) && OneLineTypes(files)
    ensures AllOneLine(FilesLines(env, boundary, files))
  {
    DelimiterOneLine(boundary);
    if files != [] {
      FileHeaderOneLine(env, files[0]);
      LeafOneLine(FileHeader(env, files[0]), files[0].content);
      assert forall i :: 0 <= i < |files[1..]| ==> files[1..][i] == files[i + 1];
      FilesOneLine(env, boundary, files[1..]);
      AllConcat(["", "--" + boundary], FileLines(env, files[0]));
      AllConcat(["", "--" + boundary] + FileLines(env, files[0]), FilesLines(env, boundary, files[1..]));
    }
  }

  lemma TailOneLine(env: Env, html: seq<Byte>, text: seq<Byte>, files: seq<Attachment>)
    requires Steady(env) && OneLineTypes(files)
    ensures AllOneLine(TailLines(env, html, text, files))
  {
    BoundaryPlain(env.mixed);
    BoundaryPlain(env.alternative);
    var body := BodyLines(MakeBoundary(env.alternative), html, TextOf(env, html, text));
    var mixed := MakeBoundary(env.mixed);
    BodyOneLine(MakeBoundary(env.alternative), html, TextOf(env, html, text));
    FilesOneLine(env, mixed, files);
    MultipartOneLine("mixed", mixed);
    DelimiterOneLine(mixed);
    var opening := [MultipartLine("mixed", mixed), "", "--" + mixed];
    AllConcat([MultipartLine("mixed", mixed)], ["", "--" + mixed]);
    assert opening == [MultipartLine("mixed", mixed)] + ["", "--" + mixed];
    AllConcat(opening, body);
    AllConcat(opening + body, FilesLines(env, mixed, files));
  }

  lemma {:induction false} MessageOneLine(env: Env, from: string, fromName: string, to: string, subject: string,
                       html: seq<Byte>, text: seq<Byte>, extra: seq<(string, string)>, files: seq<Attachment>)
    requires Steady(env) && OneLineTypes(files)
    ensures AllOneLine(MessageLines(env, from, fromName, to, subject, html, text, extra, files))
  {
    HeadOneLine(env, from, fromName, to, subject, extra);
    TailOneLine(env, html, text, files);
    AllConcat(HeadLines(env, from, fromName, to, subject, extra), TailLines(env, html, text, files));
  }

  // The header block

  function TailHeader(env: Env, html: seq<Byte>, text: seq<Byte>, files: seq<Attachment>): seq<string> {
    if files != [] then [MultipartLine("mixed", MakeBoundary(env.mixed))]
    else if Alternative(html, TextOf(env, html, text)) then [MultipartLine("alternative", MakeBoundary(env.alternative))]
    else [TEXT_TYPE, TRANSFER]
  }

  function Survivors(extra: seq<(string, string)>): nat {
    if extra == [] then 0 else (if Survives(extra[0].0) then 1 else 0) + Survivors(extra[1..])
  }

  lemma {:induction false} SurvivorsCount(extra: seq<(string, string)>)
    ensures |ExtraLines(extra)| == Survivors(extra)
  {
    if extra != [] { SurvivorsCount(extra[1..]); }
  }

  lemma TailSplits(env: Env, html: seq<Byte>, text: seq<Byte>, files: seq<Attachment>) returns (body: seq<string>)
    ensures TailLines(env, html, text, files) == TailHeader(env, html, text, files) + [""] + body
  {
    var tail := TailLines(env, html, text, files);
    var n := |TailHeader(env, html, text, files)|;
    body := tail[n + 1..];
    assert tail[..n + 1] == TailHeader(env, html, text, files) + [""];
    assert tail == tail[..n + 1] + tail[n + 1..];
  }

  /**
    Header block integrity: for all names, addresses, subjects, extra headers and attachments of any
    content type, the lines before the first empty one are the eight fixed fields, the surviving
    extra fields and the content fields, each non-empty and free of CR and LF.
    */
  lemma {:induction false} HeaderIntegrity(env: Env, from: string, fromName: string, to: string, subject: string,
                    html: seq<Byte>, text: seq<Byte>, extra: seq<(string, string)>, files: seq<Attachment>)
    requires Steady(env)
    ensures var lines := Lines(Unlines(MessageLines(env, from, fromName, to, subject, html, text, extra, files)));
            var n := HeaderLength(lines);
            && n < |lines| && lines[n] == ""
            && lines[..n] == HeadLines(env, from, fromName, to, subject, extra) + TailHeader(env, html, text, files)
            && n == 8 + Survivors(extra) + |TailHeader(env, html, text, files)|
            && AllOneLine(lines[..n]) && NoEmptyLine(lines[..n])
  {
    var written := MessageLines(env, from, fromName, to, subject, html, text, extra, files);
    HeadOneLine(env, from, fromName, to, subject, extra);
    SurvivorsCount(extra);
    TailHeaderOneLine(env, html, text, files);
    var body := TailSplits(env, html, text, files);
    var head := HeadLines(env, from, fromName, to, subject, extra) + TailHeader(env, html, text, files);
    AllConcat(HeadLines(env, from, fromName, to, subject, extra), TailHeader(env, html, text, files));
    SameLines(HeadLines(env, from, fromName, to, subject, extra), TailHeader(env, html, text, files), body, written);
    UnlinesConcat(head + [""], body);
    LinesOfPrefix(head + [""], Unlines(body));
    HeaderEnds(head, Lines(Unlines(body)));
    TakeHead(head, Lines(Unlines(body)));
  }

  lemma TailHeaderOneLine(env: Env, html: seq<Byte>, text: seq<Byte>, files: seq<Attachment>)
    ensures AllOneLine(TailHeader(env, html, text, files)) && NoEmptyLine(TailHeader(env, html, text, files))
  {
    BoundaryPlain(env.mixed);
    BoundaryPlain(env.alternative);
    MultipartOneLine("mixed", MakeBoundary(env.mixed));
    MultipartOneLine("alternative", MakeBoundary(env.alternative));
    TextTypeOneLine();
    TransferOneLine();
  }

  lemma TakeHead(head: seq<string>, rest: seq<string>)
    ensures (head + [""] + rest)[..|head|] == head && (head + [""] + rest)[|head|] == ""
  {
  }

  lemma SameLines(head: seq<string>, tailHeader: seq<string>, body: seq<string>, written: seq<string>)
    requires written == head + (tailHeader + [""] + body)
    ensures written == head + tailHeader + [""] + body
    ensures written + [""] == head + tailHeader + [""] + (body + [""])
  {
  }
}
