/**
  A reference reader of MIME messages, written without regard to the builder.  Lines end in CRLF;
  a field may be folded over several lines and its name matches in any case; content fields may not
  be repeated; a multipart carries no encoding but the identity (section 6.4 of RFC 2045); a boundary
  delimiter is a line that starts with two hyphens and the boundary, and the CRLF before it belongs
  to it (section 5.1.1 of RFC 2046).  Of the encodings only base64 is decoded.
  */
module Mime {
  import opened Wrappers
  import opened Base64

  datatype Entity =
    | Leaf(header: seq<string>, body: seq<string>)
    | Multipart(header: seq<string>, subtype: string, parts: seq<Entity>)

  function LowerChar(c: char): char { if 'A' <= c <= 'Z' then (c as int + 32) as char else c }

  function Lower(s: string): (r: string)
    ensures |r| == |s| && forall i :: 0 <= i < |s| ==> r[i] == LowerChar(s[i])
  {
    if s == "" then "" else [LowerChar(s[0])] + Lower(s[1..])
  }

  predicate OneLine(s: string) { '\r' !in s && '\n' !in s }

  /** The text split at each CRLF. */
  function Lines(text: string): (lines: seq<string>)
    ensures lines != []
  {
    if text == "" then [""]
    else if |text| >= 2 && text[0] == '\r' && text[1] == '\n' then [""] + Lines(text[2..])
    else
      var rest := Lines(text[1..]);
      [[text[0]] + rest[0]] + rest[1..]
  }

  /** The number of lines before the first empty one. */
  function HeaderLength(lines: seq<string>): (n: nat)
    ensures n <= |lines|
  {
    if lines == [] || lines[0] == "" then 0 else 1 + HeaderLength(lines[1..])
  }

  function TrimLeft(s: string): string {
    if s != "" && IsBlank(s[0]) then TrimLeft(s[1..]) else s
  }

  const TYPE: string := "content-type"
  const ENCODING: string := "content-transfer-encoding"
  const DISPOSITION: string := "content-disposition"
  const VERSION: string := "mime-version"

  /** The line opens a field of that name, which is given in lower case. */
  predicate IsField(line: string, name: string) {
    |line| > |name| && line[|name|] == ':' && Lower(line[..|name|]) == name
  }

  predicate IsBlank(c: char) { c == ' ' || c == '\t' }

  /** A line that starts with a blank continues the field above it. */
  predicate Continues(line: string) { line != "" && IsBlank(line[0]) }

  function Folded(lines: seq<string>): string {
    if lines == [] || !Continues(lines[0]) then "" else lines[0] + Folded(lines[1..])
  }

  /** The values of the fields of a header with that name. */
  function Fields(header: seq<string>, name: string): seq<string> {
    if header == [] then []
    else
      (if IsField(header[0], name) then [TrimLeft(header[0][|name| + 1..] + Folded(header[1..]))] else [])
      + Fields(header[1..], name)
  }

  function ContentTypes(header: seq<string>): seq<string> { Fields(header, TYPE) }

  function Encodings(header: seq<string>): seq<string> { Fields(header, ENCODING) }

  /** A field value up to the first blank, parameter or comment. */
  function Word(s: string): string {
    if s == "" || IsBlank(s[0]) || s[0] == ';' || s[0] == '(' then "" else [s[0]] + Word(s[1..])
  }

  /** An encoding that leaves the body as it is, the only kind a multipart may have. */
  predicate Identity(encoding: string) {
    var word := Lower(Word(encoding));
    word == "7bit" || word == "8bit" || word == "binary"
  }

  predicate IsBase64(encoding: string) { Lower(Word(encoding)) == "base64" }

  const MULTIPART: string := "multipart/"

  predicate IsMultipart(value: string) { |value| >= 10 && Lower(value[..10]) == MULTIPART }

  function UpTo(s: string, stop: char): string {
    if s == "" || s[0] == stop then "" else [s[0]] + UpTo(s[1..], stop)
  }

  function Subtype(value: string): string
    requires IsMultipart(value)
  {
    UpTo(value[10..], ';')
  }

  /** The text after the first occurrence of a pattern. */
  function After(s: string, pattern: string): Option<string> {
    if pattern <= s then Some(s[|pattern|..])
    else if s == "" then None
    else After(s[1..], pattern)
  }

  /** The content of a quoted string whose opening quote has been read. */
  function Unquote(s: string): Option<string> {
    if s == "" then None
    else if s[0] == '"' then Some("")
    else if s[0] == '\\' then
      if |s| < 2 then None
      else match Unquote(s[2..]) case None => None case Some(rest) => Some([s[1]] + rest)
    else match Unquote(s[1..]) case None => None case Some(rest) => Some([s[0]] + rest)
  }

  /** The value of a parameter, quoted or plain. */
  function Parameter(value: string, name: string): Option<string> {
    match After(value, name + "=")
    case None => None
    case Some(text) => if text != "" && text[0] == '"' then Unquote(text[1..]) else Some(UpTo(text, ';'))
  }

  function Boundary(value: string): Option<string> { Parameter(value, "boundary") }

  /** The boundary must appear in its entirety at the start of the line. */
  predicate Delimits(line: string, boundary: string) { "--" + boundary <= line }
  predicate Closes(line: string, boundary: string) { "--" + boundary + "--" <= line }

  /** The parts of a multipart body: from the first delimiter line to the closing one. */
  function Split(lines: seq<string>, boundary: string): (r: Option<seq<seq<string>>>)
    ensures r.Some? ==> forall p :: p in r.value ==> |p| < |lines|
  {
    if lines == [] then None
    else if Delimits(lines[0], boundary) then
      if Closes(lines[0], boundary) then None else Collect(lines[1..], boundary)
    else Split(lines[1..], boundary)
  }

  function Collect(lines: seq<string>, boundary: string): (r: Option<seq<seq<string>>>)
    ensures r.Some? ==> r.value != [] && forall p :: p in r.value ==> |p| < |lines|
  {
    if lines == [] then None
    else if Closes(lines[0], boundary) then Some([[]])
    else
      match Collect(lines[1..], boundary)
      case None => None
      case Some(parts) =>
        if Delimits(lines[0], boundary) then Some([[]] + parts)
        else Some([[lines[0]] + parts[0]] + parts[1..])
  }

  /** A header, an empty line and a body; None where the entity is malformed. */
  function ParseEntity(lines: seq<string>): Option<Entity>
    decreases |lines|, 1
  {
    var n := HeaderLength(lines);
    var header, body := lines[..n], if n < |lines| then lines[n + 1..] else [];
    var types, encodings := ContentTypes(header), Encodings(header);
    if |types| > 1 || |encodings| > 1 then None
    else if types == [] || !IsMultipart(types[0]) then Some(Leaf(header, body))
    else if encodings != [] && !Identity(encodings[0]) then None
    else
      match Boundary(types[0])
      case None => None
      case Some(boundary) =>
        match Split(body, boundary)
        case None => None
        case Some(parts) =>
          match ParseParts(parts, |lines|)
          case None => None
          case Some(entities) => Some(Multipart(header, Subtype(types[0]), entities))
  }

  function ParseParts(parts: seq<seq<string>>, bound: nat): Option<seq<Entity>>
    requires forall p :: p in parts ==> |p| < bound
    decreases bound, 0, |parts|
  {
    if parts == [] then Some([])
    else
      match ParseEntity(parts[0])
      case None => None
      case Some(first) =>
        match ParseParts(parts[1..], bound)
        case None => None
        case Some(rest) => Some([first] + rest)
  }

  // What a mail program shows of a parsed message

  datatype File = File(name: string, content: seq<Byte>)
  datatype Mail = Mail(text: seq<Byte>, html: Option<seq<Byte>>, files: seq<File>)

  function Join(lines: seq<string>): string {
    if lines == [] then "" else if |lines| == 1 then lines[0] else lines[0] + CRLF + Join(lines[1..])
  }

  function LeafBytes(e: Entity): Option<seq<Byte>> {
    if e.Leaf? && |Encodings(e.header)| == 1 && IsBase64(Encodings(e.header)[0]) then Decode(Join(e.body)) else None
  }

  /** The leaf's type, without its parameters, and the character set it gives. */
  predicate Typed(e: Entity, kind: string) {
    && e.Leaf? && |ContentTypes(e.header)| == 1
    && Lower(Word(ContentTypes(e.header)[0])) == kind && Parameter(ContentTypes(e.header)[0], "charset") == Some("utf-8")
  }

  /** The bytes of a leaf of that type of text. */
  function TextBytes(e: Entity, kind: string): Option<seq<Byte>> { if Typed(e, kind) then LeafBytes(e) else None }

  const PLAIN: string := "text/plain"
  const HTML: string := "text/html"

  /** The name of an attached file, from its one disposition field. */
  function FileName(header: seq<string>): Option<string> {
    var values := Fields(header, DISPOSITION);
    if |values| == 1 && Lower(Word(values[0])) == "attachment" then Parameter(values[0], "filename") else None
  }

  function ReadFile(e: Entity): Option<File> {
    var name, content := FileName(e.header), LeafBytes(e);
    if name.Some? && content.Some? then Some(File(name.value, content.value)) else None
  }

  function ReadFiles(parts: seq<Entity>): Option<seq<File>> {
    if parts == [] then Some([])
    else
      var file, rest := ReadFile(parts[0]), ReadFiles(parts[1..]);
      if file.Some? && rest.Some? then Some([file.value] + rest.value) else None
  }

  function ReadBody(e: Entity): Option<Mail> {
    match e
    case Leaf(_, _) =>
      (match TextBytes(e, PLAIN) case None => None case Some(text) => Some(Mail(text, None, [])))
    case Multipart(_, subtype, parts) =>
      if subtype != "alternative" || |parts| != 2 then None
      else
        var text, html := TextBytes(parts[0], PLAIN), TextBytes(parts[1], HTML);
        if text.Some? && html.Some? then Some(Mail(text.value, html, [])) else None
  }

  function ReadMail(e: Entity): Option<Mail> {
    if e.Multipart? && e.subtype == "mixed" then
      if e.parts == [] then None
      else
        var body, files := ReadBody(e.parts[0]), ReadFiles(e.parts[1..]);
        if body.Some? && files.Some? then Some(body.value.(files := files.value)) else None
    else ReadBody(e)
  }

  /** The one version that section 4 of RFC 2045 defines, stated once. */
  predicate Versioned(header: seq<string>) {
    var versions := Fields(header, VERSION);
    |versions| == 1 && Word(versions[0]) == "1.0"
  }

  /** A message to be displayed, rather than one that is an attachment as a whole (section 2 of RFC 2183). */
  predicate Displayed(dispositions: seq<string>) {
    dispositions == [] || (|dispositions| == 1 && Lower(Word(dispositions[0])) == "inline")
  }

  function Read(text: string): Option<Mail> {
    match ParseEntity(Lines(text))
    case None => None
    case Some(e) => if Versioned(e.header) && Displayed(Fields(e.header, DISPOSITION)) then ReadMail(e) else None
  }

  /** Two headers that agree about the message as a whole. */
  predicate SameMarks(a: seq<string>, b: seq<string>) {
    Fields(a, VERSION) == Fields(b, VERSION) && Fields(a, DISPOSITION) == Fields(b, DISPOSITION)
  }

  predicate Unmarked(header: seq<string>) { Fields(header, VERSION) == [] && Fields(header, DISPOSITION) == [] }

  lemma MarksKept(prefix: seq<string>, own: seq<string>)
    requires Unmarked(own) && (own == [] || !Continues(own[0]))
    ensures SameMarks(prefix + own, prefix)
  {
    FieldsConcat(prefix, own, VERSION);
    FieldsConcat(prefix, own, DISPOSITION);
    assert Fields(prefix, VERSION) + [] == Fields(prefix, VERSION);
    assert Fields(prefix, DISPOSITION) + [] == Fields(prefix, DISPOSITION);
  }

  // Reading back what is written line by line

  /** A line break ends whatever lines stand before it. */
  lemma {:induction false} LinesOfText(text: string, rest: string)
    ensures Lines(text + CRLF + rest) == Lines(text) + Lines(rest)
  {
    var all := text + CRLF + rest;
    if text == "" {
      assert all == CRLF + rest;
      assert all[2..] == rest;
    } else if |text| >= 2 && text[0] == '\r' && text[1] == '\n' {
      assert all[2..] == text[2..] + CRLF + rest;
      LinesOfText(text[2..], rest);
      Regroup([""], Lines(text[2..]), Lines(rest));
    } else {
      assert all[0] == text[0] && all[1..] == text[1..] + CRLF + rest;
      assert !(all[0] == '\r' && all[1] == '\n');
      LinesOfText(text[1..], rest);
      var first := Lines(text[1..]);
      assert (first + Lines(rest))[0] == first[0] && (first + Lines(rest))[1..] == first[1..] + Lines(rest);
      Regroup([[text[0]] + first[0]], first[1..], Lines(rest));
    }
  }

  lemma {:induction false} OneLineAlone(line: string)
    requires OneLine(line)
    ensures Lines(line) == [line]
  {
    if line != "" {
      OneLineAlone(line[1..]);
      assert [line[0]] + line[1..] == line;
    }
  }

  lemma UnlinesFirst(lines: seq<string>, rest: string)
    requires lines != []
    ensures Unlines(lines) + rest == lines[0] + CRLF + (Unlines(lines[1..]) + rest)
  {
    var first, others := lines[0] + CRLF, Unlines(lines[1..]);
    Regroup(first, others, rest);
  }

  /** What becomes of written lines when they hold line breaks of their own. */
  function Broken(lines: seq<string>): seq<string> {
    if lines == [] then [] else Lines(lines[0]) + Broken(lines[1..])
  }

  lemma {:induction false} LinesOfWritten(lines: seq<string>, rest: string)
    ensures Lines(Unlines(lines) + rest) == Broken(lines) + Lines(rest)
  {
    if lines == [] {
      assert Unlines(lines) + rest == rest;
    } else {
      UnlinesFirst(lines, rest);
      LinesOfText(lines[0], Unlines(lines[1..]) + rest);
      LinesOfWritten(lines[1..], rest);
      Regroup(Lines(lines[0]), Broken(lines[1..]), Lines(rest));
    }
  }

  lemma {:induction false} BrokenConcat(a: seq<string>, b: seq<string>)
    ensures Broken(a + b) == Broken(a) + Broken(b)
  {
    if a == [] {
      assert a + b == b;
    } else {
      assert (a + b)[0] == a[0] && (a + b)[1..] == a[1..] + b;
      BrokenConcat(a[1..], b);
      Regroup(Lines(a[0]), Broken(a[1..]), Broken(b));
    }
  }

  lemma {:induction false} Unbreakable(lines: seq<string>)
    requires forall i :: 0 <= i < |lines| ==> OneLine(lines[i])
    ensures Broken(lines) == lines
  {
    if lines != [] {
      OneLineAlone(lines[0]);
      assert forall i :: 0 <= i < |lines[1..]| ==> lines[1..][i] == lines[i + 1];
      Unbreakable(lines[1..]);
      FirstLine(lines);
    }
  }

  lemma LinesOfPrefix(lines: seq<string>, rest: string)
    requires forall i :: 0 <= i < |lines| ==> OneLine(lines[i])
    ensures Lines(Unlines(lines) + rest) == lines + Lines(rest)
  {
    LinesOfWritten(lines, rest);
    Unbreakable(lines);
  }

  predicate NoEmptyLine(lines: seq<string>) { forall i :: 0 <= i < |lines| ==> lines[i] != "" }

  lemma {:induction false} HeaderEnds(header: seq<string>, body: seq<string>)
    requires NoEmptyLine(header)
    ensures HeaderLength(header + [""] + body) == |header|
  {
    var lines := header + [""] + body;
    if header != [] {
      assert lines[1..] == header[1..] + [""] + body;
      HeaderEnds(header[1..], body);
    }
  }

  lemma {:induction false} FoldedConcat(a: seq<string>, b: seq<string>)
    requires b == [] || !Continues(b[0])
    ensures Folded(a + b) == Folded(a)
  {
    if a == [] {
      assert a + b == b;
    } else {
      assert (a + b)[0] == a[0] && (a + b)[1..] == a[1..] + b;
      FoldedConcat(a[1..], b);
    }
  }

  /** Headers read independently, unless the second begins in the middle of a field. */
  lemma {:induction false} FieldsConcat(a: seq<string>, b: seq<string>, name: string)
    requires b == [] || !Continues(b[0])
    ensures Fields(a + b, name) == Fields(a, name) + Fields(b, name)
  {
    if a == [] {
      assert a + b == b;
      assert Fields(a, name) == [];
    } else {
      assert (a + b)[0] == a[0] && (a + b)[1..] == a[1..] + b;
      FoldedConcat(a[1..], b);
      FieldsConcat(a[1..], b, name);
    }
  }

  predicate NoDelimiter(lines: seq<string>, boundary: string) {
    forall i :: 0 <= i < |lines| ==> !Delimits(lines[i], boundary)
  }

  lemma ClosesDelimits(line: string, boundary: string)
    requires Closes(line, boundary)
    ensures Delimits(line, boundary)
  {
    assert line[..|boundary| + 4][..|boundary| + 2] == line[..|boundary| + 2];
  }

  /** The parts, with more lines at the front of the first. */
  ghost function Longer(lines: seq<string>, parts: seq<seq<string>>): seq<seq<string>>
    requires parts != []
  {
    [lines + parts[0]] + parts[1..]
  }

  lemma NotLonger(parts: seq<seq<string>>)
    requires parts != []
    ensures Longer([], parts) == parts
  {
    assert [] + parts[0] == parts[0];
  }

  lemma LongerTwice(line: string, lines: seq<string>, parts: seq<seq<string>>)
    requires parts != []
    ensures Longer([line], Longer(lines, parts)) == Longer([line] + lines, parts)
  {
    assert Longer(lines, parts)[1..] == parts[1..];
    assert [line] + (lines + parts[0]) == [line] + lines + parts[0];
  }

  lemma CollectLine(line: string, rest: seq<string>, boundary: string)
    requires !Delimits(line, boundary) && Collect(rest, boundary).Some?
    ensures Collect([line] + rest, boundary) == Some(Longer([line], Collect(rest, boundary).value))
  {
    if Closes(line, boundary) { ClosesDelimits(line, boundary); }
    var lines := [line] + rest;
    assert lines[0] == line && lines[1..] == rest;
  }

  lemma NoDelimiterTail(lines: seq<string>, boundary: string)
    requires lines != [] && NoDelimiter(lines, boundary)
    ensures !Delimits(lines[0], boundary) && NoDelimiter(lines[1..], boundary)
  {
    forall i | 0 <= i < |lines[1..]| ensures !Delimits(lines[1..][i], boundary) {
      assert lines[1..][i] == lines[i + 1];
    }
  }

  lemma FirstLine(lines: seq<string>)
    requires lines != []
    ensures [lines[0]] + lines[1..] == lines
  {
  }

  lemma Regroup<T>(a: seq<T>, b: seq<T>, c: seq<T>)
    ensures a + b + c == a + (b + c)
  {
  }

  lemma {:induction false} CollectPart(part: seq<string>, rest: seq<string>, boundary: string)
    requires NoDelimiter(part, boundary) && Collect(rest, boundary).Some?
    ensures Collect(part + rest, boundary) == Some(Longer(part, Collect(rest, boundary).value))
  {
    if part == [] {
      assert part + rest == rest;
      NotLonger(Collect(rest, boundary).value);
    } else {
      var line, more := part[0], part[1..];
      NoDelimiterTail(part, boundary);
      CollectPart(more, rest, boundary);
      CollectLine(line, more + rest, boundary);
      LongerTwice(line, more, Collect(rest, boundary).value);
      FirstLine(part);
      Regroup([line], more, rest);
    }
  }

  lemma CollectDelimiter(rest: seq<string>, boundary: string)
    requires Collect(rest, boundary).Some?
    ensures Collect(["--" + boundary] + rest, boundary) == Some([[]] + Collect(rest, boundary).value)
  {
    var delim := "--" + boundary;
    var lines := [delim] + rest;
    assert lines[0] == delim && lines[1..] == rest && Delimits(delim, boundary) && !Closes(delim, boundary);
  }

  lemma CollectClose(epilogue: seq<string>, boundary: string)
    ensures Collect(["--" + boundary + "--"] + epilogue, boundary) == Some([[]])
  {
    var close := "--" + boundary + "--";
    var lines := [close] + epilogue;
    assert lines[0] == close && Closes(close, boundary);
  }

  /** Parts with a delimiter line between them and the closing line after the last. */
  function Interleave(parts: seq<seq<string>>, boundary: string): seq<string>
    requires parts != []
  {
    if |parts| == 1 then parts[0] + ["--" + boundary + "--"]
    else parts[0] + ["--" + boundary] + Interleave(parts[1..], boundary)
  }

  lemma LongerAlone(parts: seq<seq<string>>)
    requires parts != []
    ensures Longer(parts[0], [[]] + parts[1..]) == parts
    ensures |parts| == 1 ==> [[]] + parts[1..] == [[]]
  {
    assert parts[0] + [] == parts[0];
    assert ([[]] + parts[1..])[1..] == parts[1..];
  }

  lemma {:induction false} CollectInterleave(parts: seq<seq<string>>, boundary: string, epilogue: seq<string>)
    requires parts != [] && forall i :: 0 <= i < |parts| ==> NoDelimiter(parts[i], boundary)
    ensures Collect(Interleave(parts, boundary) + epilogue, boundary) == Some(parts)
  {
    var part, others := parts[0], parts[1..];
    LongerAlone(parts);
    if |parts| == 1 {
      var close := ["--" + boundary + "--"];
      CollectClose(epilogue, boundary);
      CollectPart(part, close + epilogue, boundary);
      Regroup(part, close, epilogue);
    } else {
      var delim := ["--" + boundary];
      assert forall i :: 0 <= i < |others| ==> others[i] == parts[i + 1];
      CollectInterleave(others, boundary, epilogue);
      var tail := Interleave(others, boundary);
      CollectDelimiter(tail + epilogue, boundary);
      CollectPart(part, delim + (tail + epilogue), boundary);
      Regroup(part + delim, tail, epilogue);
      Regroup(part, delim, tail + epilogue);
    }
  }

  /** Splitting undoes interleaving whenever no part contains a delimiter line. */
  lemma SplitInterleave(parts: seq<seq<string>>, boundary: string, epilogue: seq<string>)
    requires parts != [] && forall i :: 0 <= i < |parts| ==> NoDelimiter(parts[i], boundary)
    ensures Split(["--" + boundary] + Interleave(parts, boundary) + epilogue, boundary) == Some(parts)
  {
    var delim := "--" + boundary;
    var lines := [delim] + Interleave(parts, boundary) + epilogue;
    assert lines[0] == delim && Delimits(delim, boundary) && !Closes(delim, boundary);
    assert lines[1..] == Interleave(parts, boundary) + epilogue;
    CollectInterleave(parts, boundary, epilogue);
  }

  predicate Quotable(name: string) { '"' !in name && '\\' !in name }

  lemma {:induction false} UnquoteShrinks(s: string)
    requires Unquote(s).Some?
    ensures |Unquote(s).value| < |s|
    decreases |s|
  {
    if s[0] == '\\' { UnquoteShrinks(s[2..]); } else if s[0] != '"' { UnquoteShrinks(s[1..]); }
  }

  /** A name between quotes reads back as itself exactly when it holds no quote and no backslash. */
  lemma {:induction false} UnquoteIff(name: string)
    ensures Unquote(name + "\"") == Some(name) <==> Quotable(name)
  {
    var s := name + "\"";
    if name != "" {
      assert s[1..] == name[1..] + "\"";
      if name[0] == '"' {
      } else if name[0] == '\\' {
        if Unquote(s).Some? {
          assert |s| >= 2 && Unquote(s[2..]).Some?;
          UnquoteShrinks(s[2..]);
        }
      } else {
        UnquoteIff(name[1..]);
        assert name == [name[0]] + name[1..];
      }
    }
  }

  /** The first occurrence of a pattern lies after text without the pattern's first character. */
  lemma {:induction false} AfterFinds(before: string, pattern: string, rest: string)
    requires pattern != "" && pattern[0] !in before
    ensures After(before + pattern + rest, pattern) == Some(rest)
  {
    var s := before + pattern + rest;
    if before == "" {
      assert s == pattern + rest;
    } else {
      assert s[0] == before[0] && s[1..] == before[1..] + pattern + rest;
      AfterFinds(before[1..], pattern, rest);
    }
  }

  lemma {:induction false} UpToStops(s: string, stop: char, rest: string)
    requires stop !in s
    ensures UpTo(s + [stop] + rest, stop) == s
  {
    if s == "" {
      assert s + [stop] + rest == [stop] + rest;
    } else {
      assert (s + [stop] + rest)[1..] == s[1..] + [stop] + rest;
      UpToStops(s[1..], stop, rest);
      assert s == [s[0]] + s[1..];
    }
  }
}
