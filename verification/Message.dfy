/** The message builder of message.go. */
module Message {
  import opened Base64
  import opened Mime

  datatype Attachment = Attachment(filename: string, contentType: string, content: seq<Byte>)

  /**
    What the builder takes from outside the caller's arguments: Q-encoding, the domain of an
    address, the plain text derived from HTML, the clock, and the random bytes of the Message-ID
    and of the two boundaries.
    */
  datatype Env = Env(qencode: string -> string, domain: string -> string, plain: seq<Byte> -> seq<Byte>,
                     date: string, unique: string, mixed: seq<Byte>, alternative: seq<Byte>)

  function Strip(s: string): string {
    if s == "" then ""
    else if s[0] == '\r' || s[0] == '\n' || s[0] == '\0' then Strip(s[1..])
    else [s[0]] + Strip(s[1..])
  }

  function HexDigit(n: nat): char
    requires n < 16
  {
    if n < 10 then (48 + n) as char else (87 + n) as char
  }

  function Hex(bytes: seq<Byte>): string {
    if bytes == [] then "" else [HexDigit(bytes[0] / 16), HexDigit(bytes[0] % 16)] + Hex(bytes[1..])
  }

  function MakeBoundary(random: seq<Byte>): string { "----=_Part_" + Hex(random) }

  /** An extra header is written unless its stripped key is empty or holds a colon or a blank. */
  predicate Survives(key: string) {
    var k := Strip(key);
    k != "" && ':' !in k && ' ' !in k && '\t' !in k
  }

  function ExtraLines(extra: seq<(string, string)>): seq<string> {
    if extra == [] then []
    else (if Survives(extra[0].0) then [Strip(extra[0].0) + ": " + Strip(extra[0].1)] else []) + ExtraLines(extra[1..])
  }

  function FixedLines(env: Env, from: string, fromName: string, to: string, subject: string): seq<string> {
    var address, name := Strip(from), Strip(fromName);
    ["From: " + (if name != "" then env.qencode(name) + " <" + address + ">" else address),
     "To: " + Strip(to),
     "Subject: " + env.qencode(Strip(subject)),
     "Date: " + env.date,
     "Message-ID: <" + env.unique + "@" + env.domain(address) + ">",
     "MIME-Version: 1.0",
     "List-Unsubscribe: <mailto:unsubscribe@" + env.domain(address) + "?subject=unsubscribe>",
     "List-Unsubscribe-Post: " + "List-Unsubscribe=One-Click"]
  }

  const TRANSFER: string := "Content-Transfer-Encoding: " + "base64"
  const ATTACHED: string := "Content-Disposition: " + "attachment; filename=\""
  const TEXT_TYPE: string := "Content-Type: " + "text/plain; charset=utf-8"
  const HTML_TYPE: string := "Content-Type: " + "text/html; charset=utf-8"

  function MultipartLine(subtype: string, boundary: string): string {
    "Content-Type: multipart/" + subtype + "; boundary=\"" + boundary + "\""
  }

  function TypeOf(att: Attachment): string {
    if att.contentType == "" then "application/octet-stream" else att.contentType
  }

  /** The lines of one part: its header, an empty line and the wrapped base64 of its bytes. */
  function LeafLines(header: seq<string>, content: seq<Byte>): seq<string> { header + [""] + Chunks(Encode(content)) }

  function FileHeader(env: Env, att: Attachment): seq<string> {
    var name := env.qencode(att.filename);
    ["Content-Type: " + TypeOf(att) + "; name=\"" + name + "\"", ATTACHED + name + "\"", TRANSFER]
  }

  function FileLines(env: Env, att: Attachment): seq<string> { LeafLines(FileHeader(env, att), att.content) }

  predicate Alternative(html: seq<Byte>, text: seq<Byte>) { html != [] && text != [] }

  /** buildBodyPart: a single text part, or text and HTML as alternatives. */
  function BodyLines(boundary: string, html: seq<Byte>, text: seq<Byte>): seq<string> {
    if Alternative(html, text) then
      [MultipartLine("alternative", boundary), "", "--" + boundary]
      + LeafLines([TEXT_TYPE, TRANSFER], text) + ["", "--" + boundary]
      + LeafLines([HTML_TYPE, TRANSFER], html) + ["", "--" + boundary + "--"]
    else LeafLines([TEXT_TYPE, TRANSFER], text)
  }

  function FilesLines(env: Env, boundary: string, files: seq<Attachment>): seq<string> {
    if files == [] then ["", "--" + boundary + "--"]
    else ["", "--" + boundary] + FileLines(env, files[0]) + FilesLines(env, boundary, files[1..])
  }

  /** The text that goes out: the given one, or one derived from the HTML. */
  function TextOf(env: Env, html: seq<Byte>, text: seq<Byte>): seq<Byte> {
    if html != [] && text == [] then env.plain(html) else text
  }

  function TailLines(env: Env, html: seq<Byte>, text: seq<Byte>, files: seq<Attachment>): seq<string> {
    var body := BodyLines(MakeBoundary(env.alternative), html, TextOf(env, html, text));
    var mixed := MakeBoundary(env.mixed);
    if files == [] then body
    else [MultipartLine("mixed", mixed), "", "--" + mixed] + body + FilesLines(env, mixed, files)
  }

  function HeadLines(env: Env, from: string, fromName: string, to: string, subject: string,
                     extra: seq<(string, string)>): seq<string> {
    FixedLines(env, from, fromName, to, subject) + ExtraLines(extra)
  }

  /** The whole message, as the lines that make it up. */
  function MessageLines(env: Env, from: string, fromName: string, to: string, subject: string,
                        html: seq<Byte>, text: seq<Byte>, extra: seq<(string, string)>, files: seq<Attachment>): seq<string> {
    HeadLines(env, from, fromName, to, subject, extra) + TailLines(env, html, text, files)
  }

  // The builder

  lemma UnlinesOne(lines: seq<string>, line: string)
    ensures Unlines(lines + [line]) == Unlines(lines) + line + CRLF
  {
    UnlinesConcat(lines, [line]);
    assert Unlines([line]) == line + CRLF + Unlines([]);
  }

  /** One formatted line appended to the builder. */
  method Put(b: string, ghost lines: seq<string>, line: string) returns (b': string, ghost lines': seq<string>)
    requires b == Unlines(lines)
    ensures lines' == lines + [line]
    ensures b' == Unlines(lines + [line])
  {
    b' := b + line;
    b' := b' + CRLF;
    lines' := lines + [line];
    UnlinesOne(lines, line);
  }

  method PutWrapped(b: string, ghost lines: seq<string>, content: seq<Byte>) returns (b': string, ghost lines': seq<string>)
    requires b == Unlines(lines)
    ensures lines' == lines + Chunks(Encode(content))
    ensures b' == Unlines(lines + Chunks(Encode(content)))
  {
    var wrapped := Base64Wrap(content);
    b' := b + wrapped;
    lines' := lines + Chunks(Encode(content));
    UnlinesConcat(lines, Chunks(Encode(content)));
  }

  /** A type line, the transfer encoding, an empty line and the wrapped content. */
  method PutLeaf(b: string, ghost lines: seq<string>, contentType: string, content: seq<Byte>)
    returns (b': string, ghost lines': seq<string>)
    requires b == Unlines(lines)
    ensures lines' == lines + LeafLines([contentType, TRANSFER], content)
    ensures b' == Unlines(lines + LeafLines([contentType, TRANSFER], content))
  {
    b', lines' := Put(b, lines, contentType);
    b', lines' := Put(b', lines', TRANSFER);
    b', lines' := Put(b', lines', "");
    b', lines' := PutWrapped(b', lines', content);
  }

  /** An empty line and a delimiter line. */
  method PutDelimiter(b: string, ghost lines: seq<string>, delimiter: string) returns (b': string, ghost lines': seq<string>)
    requires b == Unlines(lines)
    ensures lines' == lines + ["", delimiter]
    ensures b' == Unlines(lines + ["", delimiter])
  {
    b', lines' := Put(b, lines, "");
    b', lines' := Put(b', lines', delimiter);
  }

  /** The head of a multipart: its type line, an empty line and the first delimiter. */
  method PutMultipart(b: string, ghost lines: seq<string>, subtype: string, boundary: string)
    returns (b': string, ghost lines': seq<string>)
    requires b == Unlines(lines)
    ensures lines' == lines + [MultipartLine(subtype, boundary), "", "--" + boundary]
    ensures b' == Unlines(lines + [MultipartLine(subtype, boundary), "", "--" + boundary])
  {
    b', lines' := Put(b, lines, MultipartLine(subtype, boundary));
    b', lines' := PutDelimiter(b', lines', "--" + boundary);
  }

  method BuildBodyPart(boundary: string, html: seq<Byte>, text: seq<Byte>) returns (b: string)
    ensures b == Unlines(BodyLines(boundary, html, text))
  {
    ghost var lines: seq<string> := [];
    b := "";
    if html != [] && text != [] {
      b, lines := PutMultipart(b, lines, "alternative", boundary);
      assert lines == [MultipartLine("alternative", boundary), "", "--" + boundary];
      b, lines := PutLeaf(b, lines, TEXT_TYPE, text);
      b, lines := PutDelimiter(b, lines, "--" + boundary);
      b, lines := PutLeaf(b, lines, HTML_TYPE, html);
      b, lines := PutDelimiter(b, lines, "--" + boundary + "--");
    } else {
      b, lines := PutLeaf(b, lines, TEXT_TYPE, text);
      assert lines == LeafLines([TEXT_TYPE, TRANSFER], text);
    }
  }

  /** From, To, Subject and Date. */
  method PutAddresses(b: string, ghost lines: seq<string>, env: Env, address: string, name: string, to: string, subject: string)
    returns (b': string, ghost lines': seq<string>)
    requires b == Unlines(lines)
    ensures lines' == lines + ["From: " + (if name != "" then env.qencode(name) + " <" + address + ">" else address),
                               "To: " + to, "Subject: " + env.qencode(subject), "Date: " + env.date]
    ensures b' == Unlines(lines')
  {
    if name != "" {
      b', lines' := Put(b, lines, "From: " + (env.qencode(name) + " <" + address + ">"));
    } else {
      b', lines' := Put(b, lines, "From: " + address);
    }
    b', lines' := Put(b', lines', "To: " + to);
    b', lines' := Put(b', lines', "Subject: " + env.qencode(subject));
    b', lines' := Put(b', lines', "Date: " + env.date);
  }

  method PutFixed(b: string, ghost lines: seq<string>, env: Env, from: string, fromName: string, to: string, subject: string)
    returns (b': string, ghost lines': seq<string>)
    requires b == Unlines(lines)
    ensures lines' == lines + FixedLines(env, from, fromName, to, subject)
    ensures b' == Unlines(lines + FixedLines(env, from, fromName, to, subject))
  {
    var address, name := Strip(from), Strip(fromName);
    b', lines' := PutAddresses(b, lines, env, address, name, Strip(to), Strip(subject));
    b', lines' := Put(b', lines', "Message-ID: <" + env.unique + "@" + env.domain(address) + ">");
    b', lines' := Put(b', lines', "MIME-Version: 1.0");
    b', lines' := Put(b', lines', "List-Unsubscribe: <mailto:unsubscribe@" + env.domain(address) + "?subject=unsubscribe>");
    b', lines' := Put(b', lines', "List-Unsubscribe-Post: " + "List-Unsubscribe=One-Click");
  }

  lemma {:induction false} ExtraOne(extra: seq<(string, string)>, k: string, v: string)
    ensures ExtraLines(extra + [(k, v)]) == ExtraLines(extra) + if Survives(k) then [Strip(k) + ": " + Strip(v)] else []
  {
    if extra == [] {
      assert extra + [(k, v)] == [(k, v)];
    } else {
      assert (extra + [(k, v)])[1..] == extra[1..] + [(k, v)];
      ExtraOne(extra[1..], k, v);
    }
  }

  method PutExtra(b: string, ghost lines: seq<string>, extra: seq<(string, string)>) returns (b': string, ghost lines': seq<string>)
    requires b == Unlines(lines)
    ensures lines' == lines + ExtraLines(extra)
    ensures b' == Unlines(lines + ExtraLines(extra))
  {
    b', lines' := b, lines;
    for i := 0 to |extra|
      invariant lines' == lines + ExtraLines(extra[..i]) && b' == Unlines(lines')
    {
      var k, v := Strip(extra[i].0), Strip(extra[i].1);
      ExtraOne(extra[..i], extra[i].0, extra[i].1);
      assert extra[..i + 1] == extra[..i] + [(extra[i].0, extra[i].1)];
      if k == "" || ':' in k || ' ' in k || '\t' in k {
        continue;
      }
      b', lines' := Put(b', lines', k + ": " + v);
    }
    assert extra[..|extra|] == extra;
  }

  method BuildHead(env: Env, from: string, fromName: string, to: string, subject: string, extra: seq<(string, string)>)
    returns (b: string, ghost lines: seq<string>)
    ensures lines == HeadLines(env, from, fromName, to, subject, extra)
    ensures b == Unlines(HeadLines(env, from, fromName, to, subject, extra))
  {
    ghost var fixed := FixedLines(env, from, fromName, to, subject);
    b, lines := PutFixed("", [], env, from, fromName, to, subject);
    EmptyFirst(fixed);
    b, lines := PutExtra(b, lines, extra);
  }

  lemma EmptyFirst<T>(xs: seq<T>)
    ensures [] + xs == xs
  {
  }

  method PutFile(b: string, ghost lines: seq<string>, env: Env, att: Attachment) returns (b': string, ghost lines': seq<string>)
    requires b == Unlines(lines)
    ensures lines' == lines + FileLines(env, att)
    ensures b' == Unlines(lines + FileLines(env, att))
  {
    var ct := att.contentType;
    if ct == "" {
      ct := "application/octet-stream";
    }
    var name := env.qencode(att.filename);
    b', lines' := Put(b, lines, "Content-Type: " + ct + "; name=\"" + name + "\"");
    b', lines' := Put(b', lines', ATTACHED + name + "\"");
    b', lines' := Put(b', lines', TRANSFER);
    assert lines' == lines + FileHeader(env, att);
    b', lines' := Put(b', lines', "");
    b', lines' := PutWrapped(b', lines', att.content);
    Regroup(lines, FileHeader(env, att), [""]);
    Regroup(lines, FileHeader(env, att) + [""], Chunks(Encode(att.content)));
  }

  method PutFiles(b: string, ghost lines: seq<string>, env: Env, boundary: string, files: seq<Attachment>)
    returns (b': string, ghost lines': seq<string>)
    requires b == Unlines(lines)
    ensures lines' == lines + FilesLines(env, boundary, files)
    ensures b' == Unlines(lines + FilesLines(env, boundary, files))
  {
    b', lines' := b, lines;
    var i := 0;
    while i < |files|
      invariant i <= |files| && b' == Unlines(lines')
      invariant lines' + FilesLines(env, boundary, files[i..]) == lines + FilesLines(env, boundary, files)
    {
      ghost var before := lines';
      b', lines' := PutDelimiter(b', lines', "--" + boundary);
      b', lines' := PutFile(b', lines', env, files[i]);
      Regroup(before, ["", "--" + boundary], FileLines(env, files[i]));
      FilesStep(env, boundary, files, i, before, lines');
      i := i + 1;
    }
    b', lines' := PutDelimiter(b', lines', "--" + boundary + "--");
  }

  lemma FilesStep(env: Env, boundary: string, files: seq<Attachment>, i: nat, before: seq<string>, after: seq<string>)
    requires i < |files| && after == before + (["", "--" + boundary] + FileLines(env, files[i]))
    ensures after + FilesLines(env, boundary, files[i + 1..]) == before + FilesLines(env, boundary, files[i..])
  {
    assert files[i..][1..] == files[i + 1..];
    Regroup(before, ["", "--" + boundary] + FileLines(env, files[i]), FilesLines(env, boundary, files[i + 1..]));
  }

  /** The mixed envelope: the body part, then each file. */
  method PutMixed(b: string, ghost lines: seq<string>, env: Env, boundary: string, bodyPart: string, ghost body: seq<string>,
                  files: seq<Attachment>)
    returns (b': string, ghost lines': seq<string>)
    requires b == Unlines(lines) && bodyPart == Unlines(body)
    ensures lines' == lines + ([MultipartLine("mixed", boundary), "", "--" + boundary] + body + FilesLines(env, boundary, files))
    ensures b' == Unlines(lines')
  {
    ghost var opening := [MultipartLine("mixed", boundary), "", "--" + boundary];
    b', lines' := PutMultipart(b, lines, "mixed", boundary);
    UnlinesConcat(lines', body);
    b', lines' := b' + bodyPart, lines' + body;
    b', lines' := PutFiles(b', lines', env, boundary, files);
    Regroup(lines, opening, body);
    Regroup(lines, opening + body, FilesLines(env, boundary, files));
  }

  /** BuildMessage writes exactly the lines of MessageLines, for any iteration order of the header map. */
  method BuildMessage(env: Env, from: string, fromName: string, to: string, subject: string,
                      html: seq<Byte>, text: seq<Byte>, extra: seq<(string, string)>, files: seq<Attachment>)
    returns (raw: string)
    ensures raw == Unlines(MessageLines(env, from, fromName, to, subject, html, text, extra, files))
  {
    var b; ghost var lines;
    b, lines := BuildHead(env, from, fromName, to, subject, extra);
    var textBody := text;
    if html != [] && text == [] {
      textBody := env.plain(html);
    }
    var bodyPart := BuildBodyPart(MakeBoundary(env.alternative), html, textBody);
    ghost var body := BodyLines(MakeBoundary(env.alternative), html, textBody);
    if files == [] {
      UnlinesConcat(lines, body);
      b, lines := b + bodyPart, lines + body;
    } else {
      b, lines := PutMixed(b, lines, env, MakeBoundary(env.mixed), bodyPart, body, files);
    }
    raw := b;
  }
}
