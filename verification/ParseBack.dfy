/** The round trip of whole messages, with the exact condition under which it holds. */
module ParseBack {
  import opened Wrappers
  import opened Base64
  import opened Mime
  import opened Message
  import opened HeaderBlock
  import opened FieldReading
  import opened RoundTrip
  import opened FileParts

  // The lines of a message as the reader finds them

  function RealFilesLines(env: Env, boundary: string, files: seq<Attachment>): seq<string> {
    if files == [] then ["", "--" + boundary + "--"]
    else ["", "--" + boundary] + RealFile(env, files[0]) + RealFilesLines(env, boundary, files[1..])
  }

  function RealTail(env: Env, html: seq<Byte>, text: seq<Byte>, files: seq<Attachment>): seq<string> {
    var body := BodyLines(MakeBoundary(env.alternative), html, TextOf(env, html, text));
    var mixed := MakeBoundary(env.mixed);
    if files == [] then body
    else [MultipartLine("mixed", mixed), "", "--" + mixed] + body + RealFilesLines(env, mixed, files)
  }

  lemma {:induction false} FilesBroken(env: Env, boundary: string, files: seq<Attachment>)
    requires Steady(env) && OneLine(boundary)
    ensures Broken(FilesLines(env, boundary, files)) == RealFilesLines(env, boundary, files)
  {
    DelimiterOneLine(boundary);
    Unbreakable(["", "--" + boundary]);
    Unbreakable(["", "--" + boundary + "--"]);
    if files != [] {
      FilesBroken(env, boundary, files[1..]);
      FileBroken(env, files[0]);
      BrokenConcat(["", "--" + boundary], FileLines(env, files[0]));
      BrokenConcat(["", "--" + boundary] + FileLines(env, files[0]), FilesLines(env, boundary, files[1..]));
    }
  }

  lemma TailBroken(env: Env, html: seq<Byte>, text: seq<Byte>, files: seq<Attachment>)
    requires Steady(env)
    ensures Broken(TailLines(env, html, text, files)) == RealTail(env, html, text, files)
  {
    var body := BodyLines(MakeBoundary(env.alternative), html, TextOf(env, html, text));
    var mixed := MakeBoundary(env.mixed);
    BoundaryPlain(env.mixed);
    BoundaryPlain(env.alternative);
    BodyOneLine(MakeBoundary(env.alternative), html, TextOf(env, html, text));
    MultipartOneLine("mixed", mixed);
    DelimiterOneLine(mixed);
    var opening := [MultipartLine("mixed", mixed), "", "--" + mixed];
    AllConcat([MultipartLine("mixed", mixed)], ["", "--" + mixed]);
    assert opening == [MultipartLine("mixed", mixed)] + ["", "--" + mixed];
    AllConcat(opening, body);
    Unbreakable(body);
    Unbreakable(opening + body);
    FilesBroken(env, mixed, files);
    BrokenConcat(opening + body, FilesLines(env, mixed, files));
  }

  lemma MessageBroken(env: Env, from: string, fromName: string, to: string, subject: string,
                      html: seq<Byte>, text: seq<Byte>, extra: seq<(string, string)>, files: seq<Attachment>)
    requires Steady(env)
    ensures Lines(Unlines(MessageLines(env, from, fromName, to, subject, html, text, extra, files)))
         == HeadLines(env, from, fromName, to, subject, extra) + RealTail(env, html, text, files) + [""]
  {
    var head, tail := HeadLines(env, from, fromName, to, subject, extra), TailLines(env, html, text, files);
    HeadOneLine(env, from, fromName, to, subject, extra);
    TailBroken(env, html, text, files);
    Unbreakable(head);
    BrokenConcat(head, tail);
    LinesOfWritten(head + tail, "");
    assert Unlines(head + tail) + "" == Unlines(head + tail);
  }

  // The mixed envelope

  function PartsOf(env: Env, files: seq<Attachment>): seq<seq<string>> {
    if files == [] then [] else [RealFile(env, files[0]) + [""]] + PartsOf(env, files[1..])
  }

  lemma {:induction false} PartsAt(env: Env, files: seq<Attachment>, i: nat)
    requires i < |files|
    ensures |PartsOf(env, files)| == |files| && PartsOf(env, files)[i] == RealFile(env, files[i]) + [""]
  {
    if i > 0 {
      PartsAt(env, files[1..], i - 1);
    } else if |files| > 1 {
      PartsAt(env, files[1..], 0);
    }
  }

  lemma LastGroups(first: seq<string>, c: string)
    ensures first + ["", c] == first + [""] + [c]
  {
  }

  lemma NextGroups(first: seq<string>, d: string, file: seq<string>, rest: seq<string>)
    ensures first + (["", d] + file + rest) == first + [""] + [d] + (file + rest)
  {
  }

  /** The builder's output regrouped: the empty line before a delimiter closes the part above it. */
  lemma {:induction false} FilesInterleave(env: Env, first: seq<string>, boundary: string, files: seq<Attachment>)
    ensures first + RealFilesLines(env, boundary, files) == Interleave([first + [""]] + PartsOf(env, files), boundary)
    decreases |files|
  {
    var parts := [first + [""]] + PartsOf(env, files);
    if files == [] {
      LastGroups(first, "--" + boundary + "--");
    } else {
      var file := RealFile(env, files[0]);
      FilesInterleave(env, file, boundary, files[1..]);
      assert parts[1..] == [file + [""]] + PartsOf(env, files[1..]);
      NextGroups(first, "--" + boundary, file, RealFilesLines(env, boundary, files[1..]));
    }
  }

  lemma NoDelimiterConcat(a: seq<string>, b: seq<string>, boundary: string)
    requires NoDelimiter(a, boundary) && NoDelimiter(b, boundary)
    ensures NoDelimiter(a + b, boundary)
  {
  }

  lemma OpeningHasNoDelimiter(x: string, y: string)
    requires |x| == |y| && x != y
    ensures NoDelimiter([MultipartLine("alternative", y), "", "--" + y], x)
    ensures NoDelimiter(["", "--" + y], x) && NoDelimiter(["", "--" + y + "--"], x) && NoDelimiter([""], x)
  {
    OtherBoundary(x, y);
    StartsWithHyphen(MultipartLine("alternative", y), x);
    StartsWithHyphen("", x);
  }

  /** The body part never contains the outer delimiter, although it holds delimiters of its own. */
  lemma BodyHasNoOuterDelimiter(x: string, y: string, html: seq<Byte>, text: seq<Byte>)
    requires |x| == |y| && x != y
    ensures NoDelimiter(BodyLines(y, html, text) + [""], x)
  {
    var a, b := LeafLines([TEXT_TYPE, TRANSFER], text), LeafLines([HTML_TYPE, TRANSFER], html);
    TextHeadersPlain(x);
    LeafHasNoDelimiter([TEXT_TYPE, TRANSFER], text, x);
    LeafHasNoDelimiter([HTML_TYPE, TRANSFER], html, x);
    OpeningHasNoDelimiter(x, y);
    if Alternative(html, text) {
      var opening := [MultipartLine("alternative", y), "", "--" + y];
      Shorter(a, x);
      Shorter(b, x);
      NoDelimiterConcat(opening, a, x);
      NoDelimiterConcat(opening + a, ["", "--" + y], x);
      NoDelimiterConcat(opening + a + ["", "--" + y], b, x);
      NoDelimiterConcat(opening + a + ["", "--" + y] + b, ["", "--" + y + "--"], x);
      NoDelimiterConcat(BodyLines(y, html, text), [""], x);
    }
  }

  lemma Shorter(a: seq<string>, boundary: string)
    requires NoDelimiter(a + [""], boundary)
    ensures NoDelimiter(a, boundary)
  {
    forall i | 0 <= i < |a| ensures !Delimits(a[i], boundary) {
      assert (a + [""])[i] == a[i];
    }
  }

  lemma SuffixPlain(env: Env, att: Attachment, boundary: string)
    ensures NoDelimiter(FileSuffix(env, att), boundary)
  {
    var suffix := FileSuffix(env, att);
    assert suffix[0][0] == 'C' && suffix[1][0] == 'C';
    PlainHeader(suffix, boundary);
  }

  /** A file part holds a delimiter only where its type does. */
  lemma FileHasNoDelimiter(env: Env, att: Attachment, boundary: string)
    requires NoDelimiter(TypeLines(env, att), boundary)
    ensures NoDelimiter(RealFile(env, att) + [""], boundary)
  {
    SuffixPlain(env, att, boundary);
    NoDelimiterConcat(TypeLines(env, att), FileSuffix(env, att), boundary);
    LeafHasNoDelimiter(RealHeader(env, att), att.content, boundary);
  }

  function AllParts(env: Env, html: seq<Byte>, text: seq<Byte>, files: seq<Attachment>): seq<seq<string>> {
    [BodyLines(MakeBoundary(env.alternative), html, text) + [""]] + PartsOf(env, files)
  }

  lemma PartIs(env: Env, html: seq<Byte>, text: seq<Byte>, files: seq<Attachment>, i: nat)
    requires i <= |files|
    ensures var parts := AllParts(env, html, text, files);
            && |parts| == 1 + |files|
            && parts[i] == if i == 0 then BodyLines(MakeBoundary(env.alternative), html, text) + [""]
                           else RealFile(env, files[i - 1]) + [""]
  {
    if files != [] { PartsAt(env, files, 0); }
    if i > 0 { PartsAt(env, files, i - 1); }
  }

  lemma PartHasNoDelimiter(env: Env, html: seq<Byte>, text: seq<Byte>, files: seq<Attachment>, i: nat)
    requires Sound(env) && i <= |files|
    requires i > 0 ==> NoDelimiter(TypeLines(env, files[i - 1]), MakeBoundary(env.mixed))
    ensures |AllParts(env, html, text, files)| == 1 + |files|
    ensures NoDelimiter(AllParts(env, html, text, files)[i], MakeBoundary(env.mixed))
  {
    BoundariesDiffer(env);
    PartIs(env, html, text, files, i);
    if i == 0 {
      BodyHasNoOuterDelimiter(MakeBoundary(env.mixed), MakeBoundary(env.alternative), html, text);
    } else {
      FileHasNoDelimiter(env, files[i - 1], MakeBoundary(env.mixed));
    }
  }

  // What the reader shows

  function FilesOf(env: Env, files: seq<Attachment>): (r: seq<File>)
    ensures |r| == |files| && forall i :: 0 <= i < |files| ==> r[i] == File(NameOf(env, files[i]), files[i].content)
  {
    if files == [] then [] else [File(NameOf(env, files[0]), files[0].content)] + FilesOf(env, files[1..])
  }

  /**
    What a faithful reader must show: the caller's text, or without one the text derived from the
    HTML; the HTML if there was one; and every file in order.
    */
  function MailOf(env: Env, html: seq<Byte>, text: seq<Byte>, files: seq<Attachment>): Mail {
    Mail(if text == [] && html != [] then env.plain(html) else text, if html != [] then Some(html) else None, FilesOf(env, files))
  }

  /** A message of one text part, without HTML beside it and without files. */
  predicate IsLeaf(env: Env, html: seq<Byte>, text: seq<Byte>, files: seq<Attachment>) {
    files == [] && (html == [] || (text == [] && env.plain(html) == []))
  }

  predicate Undelimited(env: Env, att: Attachment) { NoDelimiter(TypeLines(env, att), MakeBoundary(env.mixed)) }

  predicate FilesReadable(env: Env, files: seq<Attachment>) {
    forall i :: 0 <= i < |files| ==> FileReadable(env, files[i]) && Undelimited(env, files[i])
  }

  /** The text next to the HTML, and the files. */
  predicate PartsReadable(env: Env, html: seq<Byte>, text: seq<Byte>, files: seq<Attachment>) {
    (html != [] && text == [] ==> env.plain(html) != []) && FilesReadable(env, files)
  }

  /**
    What the caller must ensure.  No surviving extra header names the content type or the MIME
    version, none names an encoding, save one identity encoding on a multipart message, and none a
    disposition, save one "inline".  Next to any HTML there is a non-empty plain text, given or
    derived.  Every file is readable, and its type does not hold the delimiter.
    */
  predicate Readable(env: Env, html: seq<Byte>, text: seq<Byte>, extra: seq<(string, string)>, files: seq<Attachment>) {
    && Named(extra, TYPE) == [] && Named(extra, VERSION) == [] && Displayed(Named(extra, DISPOSITION))
    && Fits(Named(extra, ENCODING), IsLeaf(env, html, text, files))
    && PartsReadable(env, html, text, files)
  }

  /** The first line that is a delimiter. */
  function DelimiterAt(lines: seq<string>, boundary: string): (n: nat)
    ensures n <= |lines| && NoDelimiter(lines[..n], boundary) && (n < |lines| ==> Delimits(lines[n], boundary))
    ensures n == |lines| <==> NoDelimiter(lines, boundary)
  {
    if lines == [] || Delimits(lines[0], boundary) then 0
    else
      var n := 1 + DelimiterAt(lines[1..], boundary);
      assert lines[..n][0] == lines[0] && lines[..n][1..] == lines[1..][..n - 1];
      assert NoDelimiter(lines[..n], boundary) by {
        forall i | 0 <= i < n ensures !Delimits(lines[..n][i], boundary) {
          if i > 0 { assert lines[..n][i] == lines[1..][..n - 1][i - 1]; }
        }
      }
      assert NoDelimiter(lines, boundary) <==> NoDelimiter(lines[1..], boundary) by {
        assert forall i :: 0 < i < |lines| ==> lines[i] == lines[1..][i - 1];
      }
      n
  }

  /**
    The one thing assumed of the types beyond that: none of them both guesses the delimiter, which is
    drawn after the request, and holds a complete copy of its own file above it.
    */
  predicate NoCopy(env: Env, att: Attachment) {
    var own := TypeLines(env, att);
    var n := DelimiterAt(own, MakeBoundary(env.mixed));
    n < |own| ==> !PartShows(own[..n], File(NameOf(env, att), att.content))
  }

  predicate NoCopies(env: Env, files: seq<Attachment>) { forall i :: 0 <= i < |files| ==> NoCopy(env, files[i]) }

  // Lists of parts and what they show

  predicate AllShow(parts: seq<seq<string>>, files: seq<File>) {
    |parts| == |files| && forall i :: 0 <= i < |parts| ==> PartShows(parts[i], files[i])
  }

  /** Parts read as these files exactly if each of them shows its file. */
  lemma {:induction false} PartsShow(parts: seq<seq<string>>, bound: nat, files: seq<File>)
    requires forall p :: p in parts ==> |p| < bound
    ensures var entities := ParseParts(parts, bound);
            (entities.Some? && ReadFiles(entities.value) == Some(files)) <==> AllShow(parts, files)
    decreases |parts|
  {
    if parts == [] {
      assert files == [] <==> AllShow(parts, files);
    } else {
      assert parts[0] in parts && forall p :: p in parts[1..] ==> p in parts;
      PartsShow(parts[1..], bound, if files == [] then [] else files[1..]);
      ShowFirst(parts, files);
      ReadFirst(parts, bound, files);
    }
  }

  lemma ShowFirst(parts: seq<seq<string>>, files: seq<File>)
    requires parts != []
    ensures AllShow(parts, files) <==> files != [] && PartShows(parts[0], files[0]) && AllShow(parts[1..], files[1..])
  {
    if files != [] && PartShows(parts[0], files[0]) && AllShow(parts[1..], files[1..]) {
      forall i | 0 <= i < |parts| ensures PartShows(parts[i], files[i]) {
        if i > 0 { assert parts[i] == parts[1..][i - 1] && files[i] == files[1..][i - 1]; }
      }
    }
    if AllShow(parts, files) {
      forall i | 0 <= i < |parts[1..]| ensures PartShows(parts[1..][i], files[1..][i]) {
        assert parts[1..][i] == parts[i + 1] && files[1..][i] == files[i + 1];
      }
    }
  }

  lemma ReadFirst(parts: seq<seq<string>>, bound: nat, files: seq<File>)
    requires parts != [] && forall p :: p in parts ==> |p| < bound
    ensures (forall p :: p in parts[1..] ==> |p| < bound)
    ensures var entities, rest := ParseParts(parts, bound), ParseParts(parts[1..], bound);
            (entities.Some? && ReadFiles(entities.value) == Some(files))
            <==> files != [] && PartShows(parts[0], files[0]) && rest.Some? && ReadFiles(rest.value) == Some(files[1..])
  {
    assert parts[0] in parts && forall p :: p in parts[1..] ==> p in parts;
    var first, rest := ParseEntity(parts[0]), ParseParts(parts[1..], bound);
    if first.Some? && rest.Some? {
      var entities := [first.value] + rest.value;
      assert entities[0] == first.value && entities[1..] == rest.value;
      if files != [] { assert files == [files[0]] + files[1..]; }
    }
  }

  predicate Bounded(got: Option<seq<seq<string>>>, bound: nat) {
    got.Some? ==> forall p :: p in got.value ==> |p| < bound
  }

  /** The parts parse, and those after the first read as these files. */
  predicate Shown(got: Option<seq<seq<string>>>, bound: nat, files: seq<File>)
    requires Bounded(got, bound)
  {
    && got.Some? && ParseParts(got.value, bound).Some?
    && ParseParts(got.value, bound).value != [] && ReadFiles(ParseParts(got.value, bound).value[1..]) == Some(files)
  }

  /** Parts that read as these files stand below this body. */
  predicate Below(got: Option<seq<seq<string>>>, bound: nat, files: seq<File>, body: Entity)
    requires Bounded(got, bound)
  {
    Shown(got, bound, files) ==> ParseParts(got.value, bound).value[0] == body
  }

  /** A body part followed by file parts. */
  lemma MixedPartsShow(parts: seq<seq<string>>, bound: nat, body: Entity, files: seq<File>)
    requires parts != [] && (forall p :: p in parts ==> |p| < bound) && ParseEntity(parts[0]) == Some(body)
    ensures Bounded(Some(parts), bound) && Below(Some(parts), bound, files, body)
    ensures Shown(Some(parts), bound, files) <==> AllShow(parts[1..], files)
  {
    assert parts[0] in parts && forall p :: p in parts[1..] ==> p in parts;
    PartsShow(parts[1..], bound, files);
    BodyFirst(parts, bound, body);
  }

  lemma BodyFirst(parts: seq<seq<string>>, bound: nat, body: Entity)
    requires parts != [] && (forall p :: p in parts ==> |p| < bound) && ParseEntity(parts[0]) == Some(body)
    requires forall p :: p in parts[1..] ==> |p| < bound
    ensures var entities, rest := ParseParts(parts, bound), ParseParts(parts[1..], bound);
            && (entities.Some? <==> rest.Some?)
            && (rest.Some? ==> entities.value != [] && entities.value[0] == body && entities.value[1..] == rest.value)
  {
    assert parts[0] in parts;
    var rest := ParseParts(parts[1..], bound);
    if rest.Some? { assert ([body] + rest.value)[1..] == rest.value; }
  }

  lemma FilePartShows(env: Env, html: seq<Byte>, text: seq<Byte>, files: seq<Attachment>, i: nat)
    requires Steady(env) && i < |files|
    ensures |AllParts(env, html, text, files)| == 1 + |files|
    ensures PartShows(AllParts(env, html, text, files)[i + 1], FilesOf(env, files)[i]) <==> FileReadable(env, files[i])
  {
    PartIs(env, html, text, files, i + 1);
    FileShows(env, files[i]);
  }

  lemma FilePartsShow(env: Env, html: seq<Byte>, text: seq<Byte>, files: seq<Attachment>)
    requires Steady(env)
    ensures AllParts(env, html, text, files) != []
    ensures AllShow(AllParts(env, html, text, files)[1..], FilesOf(env, files))
            <==> forall i :: 0 <= i < |files| ==> FileReadable(env, files[i])
  {
    var all, shown := AllParts(env, html, text, files), FilesOf(env, files);
    PartIs(env, html, text, files, 0);
    if AllShow(all[1..], shown) {
      forall i | 0 <= i < |files| ensures FileReadable(env, files[i]) {
        assert PartShows(all[1..][i], shown[i]) && all[1..][i] == all[i + 1];
        FilePartShows(env, html, text, files, i);
      }
    }
    if forall i :: 0 <= i < |files| ==> FileReadable(env, files[i]) {
      forall i | 0 <= i < |all[1..]| ensures PartShows(all[1..][i], shown[i]) {
        assert FileReadable(env, files[i]) && all[1..][i] == all[i + 1];
        FilePartShows(env, html, text, files, i);
      }
    }
  }

  lemma BodyPartParses(env: Env, html: seq<Byte>, text: seq<Byte>)
    ensures ParseEntity(BodyLines(MakeBoundary(env.alternative), html, text) + [""])
         == Some(BodyEntity([], MakeBoundary(env.alternative), html, text))
    ensures ReadBody(BodyEntity([], MakeBoundary(env.alternative), html, text))
         == Some(Mail(text, if Alternative(html, text) then Some(html) else None, []))
  {
    NothingFits([]);
    BoundaryPlain(env.alternative);
    BodyParses([], MakeBoundary(env.alternative), html, text);
    EmptyFirst(BodyLines(MakeBoundary(env.alternative), html, text));
    BodyReads([], MakeBoundary(env.alternative), html, text);
  }

  // A delimiter inside a type

  lemma NoPart(part: seq<string>, rest: seq<string>, boundary: string)
    requires NoDelimiter(part, boundary) && Collect(rest, boundary) == None
    ensures Collect(part + rest, boundary) == None
    decreases |part|
  {
    if part == [] {
      assert part + rest == rest;
    } else {
      NoDelimiterTail(part, boundary);
      if Closes(part[0], boundary) { ClosesDelimits(part[0], boundary); }
      assert (part + rest)[0] == part[0] && (part + rest)[1..] == part[1..] + rest;
      NoPart(part[1..], rest, boundary);
    }
  }

  /** Where a delimiter stands, the part above it ends. */
  lemma PartEnds(part: seq<string>, delimiter: string, rest: seq<string>, boundary: string)
    requires NoDelimiter(part, boundary) && Delimits(delimiter, boundary)
    ensures var got := Collect(part + ([delimiter] + rest), boundary); got.Some? ==> got.value[0] == part
  {
    var tail := [delimiter] + rest;
    assert tail[0] == delimiter && tail[1..] == rest;
    if Collect(tail, boundary).None? {
      NoPart(part, tail, boundary);
    } else {
      CollectPart(part, tail, boundary);
      var more := Collect(tail, boundary).value;
      assert more[0] == [];
      assert part + [] == part;
    }
  }

  /** The parts before the first broken one come back whole, and that one up to its delimiter. */
  lemma {:induction false} CollectBreaks(parts: seq<seq<string>>, boundary: string, epilogue: seq<string>, p: nat)
    requires p < |parts| && forall q :: 0 <= q < p ==> NoDelimiter(parts[q], boundary)
    requires DelimiterAt(parts[p], boundary) < |parts[p]|
    ensures var got := Collect(Interleave(parts, boundary) + epilogue, boundary);
            got.Some? ==> p < |got.value| && got.value[p] == parts[p][..DelimiterAt(parts[p], boundary)]
    decreases |parts|
  {
    var lines := Interleave(parts, boundary) + epilogue;
    var after := lines[|parts[0]|..];
    assert lines == parts[0] + after by { InterleaveOpens(parts, boundary, epilogue); }
    if p == 0 {
      var n := DelimiterAt(parts[0], boundary);
      var rest := parts[0][n + 1..] + after;
      assert lines == parts[0][..n] + ([parts[0][n]] + rest);
      PartEnds(parts[0][..n], parts[0][n], rest, boundary);
    } else {
      var tail := Interleave(parts[1..], boundary) + epilogue;
      InterleaveNext(parts, boundary, epilogue);
      CollectBreaks(parts[1..], boundary, epilogue, p - 1);
      if Collect(tail, boundary).None? {
        NoneAfterDelimiter(tail, boundary);
        NoPart(parts[0], ["--" + boundary] + tail, boundary);
      } else {
        CollectDelimiter(tail, boundary);
        CollectPart(parts[0], ["--" + boundary] + tail, boundary);
        LongerAlone([parts[0]] + Collect(tail, boundary).value);
        assert ([parts[0]] + Collect(tail, boundary).value)[1..] == Collect(tail, boundary).value;
      }
    }
  }

  lemma InterleaveOpens(parts: seq<seq<string>>, boundary: string, epilogue: seq<string>)
    requires parts != []
    ensures var lines := Interleave(parts, boundary) + epilogue;
            |parts[0]| <= |lines| && lines[..|parts[0]|] == parts[0]
  {
  }

  lemma InterleaveNext(parts: seq<seq<string>>, boundary: string, epilogue: seq<string>)
    requires |parts| > 1
    ensures Interleave(parts, boundary) + epilogue
         == parts[0] + (["--" + boundary] + (Interleave(parts[1..], boundary) + epilogue))
  {
  }

  lemma NoneAfterDelimiter(rest: seq<string>, boundary: string)
    requires Collect(rest, boundary) == None
    ensures Collect(["--" + boundary] + rest, boundary) == None
  {
    var lines := ["--" + boundary] + rest;
    assert lines[0] == "--" + boundary && lines[1..] == rest;
    OpenIsNotClose(boundary);
  }

  lemma OpenIsNotClose(boundary: string)
    ensures !Closes("--" + boundary, boundary)
  {
    assert |"--" + boundary + "--"| > |"--" + boundary|;
  }

  lemma {:induction false} ParsedAt(parts: seq<seq<string>>, bound: nat, i: nat)
    requires (forall p :: p in parts ==> |p| < bound) && i < |parts| && ParseParts(parts, bound).Some?
    ensures |ParseParts(parts, bound).value| == |parts|
    ensures ParseEntity(parts[i]) == Some(ParseParts(parts, bound).value[i])
    decreases |parts|
  {
    assert parts[0] in parts && forall p :: p in parts[1..] ==> p in parts;
    if i > 0 {
      ParsedAt(parts[1..], bound, i - 1);
    } else if |parts| > 1 {
      ParsedAt(parts[1..], bound, 0);
    }
  }

  lemma {:induction false} ReadAt(entities: seq<Entity>, i: nat)
    requires i < |entities| && ReadFiles(entities).Some?
    ensures |ReadFiles(entities).value| == |entities| && ReadFile(entities[i]) == Some(ReadFiles(entities).value[i])
  {
    if i > 0 {
      ReadAt(entities[1..], i - 1);
    } else if |entities| > 1 {
      ReadAt(entities[1..], 0);
    }
  }

  /** If a broken part does not show its file, neither do the parts as a whole. */
  lemma BrokenPartShowsNothing(got: seq<seq<string>>, bound: nat, p: nat, files: seq<File>)
    requires (forall q :: q in got ==> |q| < bound) && 0 < p < |got| && p - 1 < |files| && !PartShows(got[p], files[p - 1])
    ensures var entities := ParseParts(got, bound);
            entities.Some? ==> entities.value != [] && ReadFiles(entities.value[1..]) != Some(files)
  {
    var entities := ParseParts(got, bound);
    if entities.Some? {
      ParsedAt(got, bound, p);
      var tail := entities.value[1..];
      assert tail[p - 1] == entities.value[p];
      if ReadFiles(tail) == Some(files) { ReadAt(tail, p - 1); }
    }
  }

  // Whole messages

  lemma MixedGroups(head: seq<string>, m: string, d: string, body: seq<string>, files: seq<string>)
    ensures head + ([m, "", d] + body + files) + [""] == head + [m] + [""] + ([d] + (body + files) + [""])
  {
  }

  /** The body of a mixed message, split at its boundary. */
  function MixedBody(env: Env, html: seq<Byte>, text: seq<Byte>, files: seq<Attachment>): seq<string> {
    var mixed := MakeBoundary(env.mixed);
    ["--" + mixed] + Interleave(AllParts(env, html, text, files), mixed) + [""]
  }

  lemma MixedLines(head: seq<string>, env: Env, html: seq<Byte>, text: seq<Byte>, files: seq<Attachment>)
    requires files != []
    ensures head + RealTail(env, html, text, files) + [""]
         == head + [MultipartLine("mixed", MakeBoundary(env.mixed))] + [""] + MixedBody(env, html, TextOf(env, html, text), files)
  {
    var mixed, sent := MakeBoundary(env.mixed), TextOf(env, html, text);
    var body := BodyLines(MakeBoundary(env.alternative), html, sent);
    FilesInterleave(env, body, mixed, files);
    MixedGroups(head, MultipartLine("mixed", mixed), "--" + mixed, body, RealFilesLines(env, mixed, files));
  }

  /** The parts a mixed body splits into show the files exactly if each is readable and none holds the delimiter. */
  lemma MixedSplitShows(env: Env, html: seq<Byte>, text: seq<Byte>, files: seq<Attachment>, bound: nat)
    requires Sound(env) && NoCopies(env, files)
    requires Bounded(Split(MixedBody(env, html, text, files), MakeBoundary(env.mixed)), bound)
    ensures var got := Split(MixedBody(env, html, text, files), MakeBoundary(env.mixed));
            && Below(got, bound, FilesOf(env, files), BodyEntity([], MakeBoundary(env.alternative), html, text))
            && (Shown(got, bound, FilesOf(env, files)) <==> FilesReadable(env, files))
  {
    if forall i :: 0 <= i < |files| ==> Undelimited(env, files[i]) {
      WholeShown(env, html, text, files, bound);
    } else {
      var i :| 0 <= i < |files| && !Undelimited(env, files[i]);
      BrokenSplitShows(env, html, text, files, bound, i);
      OneSpoils(env, files, i);
    }
  }

  lemma OneSpoils(env: Env, files: seq<Attachment>, i: nat)
    requires i < |files| && !Undelimited(env, files[i])
    ensures !FilesReadable(env, files)
  {
  }

  lemma WholeShown(env: Env, html: seq<Byte>, text: seq<Byte>, files: seq<Attachment>, bound: nat)
    requires Sound(env) && forall i :: 0 <= i < |files| ==> Undelimited(env, files[i])
    requires Bounded(Split(MixedBody(env, html, text, files), MakeBoundary(env.mixed)), bound)
    ensures var got := Split(MixedBody(env, html, text, files), MakeBoundary(env.mixed));
            && Below(got, bound, FilesOf(env, files), BodyEntity([], MakeBoundary(env.alternative), html, text))
            && (Shown(got, bound, FilesOf(env, files)) <==> FilesReadable(env, files))
  {
    WholeSplitShows(env, html, text, files, bound);
  }

  lemma WholeSplitShows(env: Env, html: seq<Byte>, text: seq<Byte>, files: seq<Attachment>, bound: nat)
    requires Sound(env) && forall i :: 0 <= i < |files| ==> Undelimited(env, files[i])
    requires Bounded(Split(MixedBody(env, html, text, files), MakeBoundary(env.mixed)), bound)
    ensures var parts := AllParts(env, html, text, files);
            && Split(MixedBody(env, html, text, files), MakeBoundary(env.mixed)) == Some(parts)
            && Bounded(Some(parts), bound)
            && Below(Some(parts), bound, FilesOf(env, files), BodyEntity([], MakeBoundary(env.alternative), html, text))
            && (Shown(Some(parts), bound, FilesOf(env, files)) <==> forall i :: 0 <= i < |files| ==> FileReadable(env, files[i]))
  {
    var mixed, parts := MakeBoundary(env.mixed), AllParts(env, html, text, files);
    PartIs(env, html, text, files, 0);
    forall i | 0 <= i < |parts| ensures NoDelimiter(parts[i], mixed) {
      if i > 0 { assert Undelimited(env, files[i - 1]); }
      PartHasNoDelimiter(env, html, text, files, i);
    }
    SplitInterleave(parts, mixed, [""]);
    BodyPartParses(env, html, text);
    MixedPartsShow(parts, bound, BodyEntity([], MakeBoundary(env.alternative), html, text), FilesOf(env, files));
    FilePartsShow(env, html, text, files);
  }

  lemma {:induction false} FirstDelimited(env: Env, files: seq<Attachment>, i: nat) returns (first: nat)
    requires i < |files| && !Undelimited(env, files[i])
    ensures first < |files| && !Undelimited(env, files[first]) && forall k :: 0 <= k < first ==> Undelimited(env, files[k])
    decreases i
  {
    if k :| 0 <= k < i && !Undelimited(env, files[k]) { first := FirstDelimited(env, files, k); } else { first := i; }
  }

  lemma FirstInType(env: Env, att: Attachment, boundary: string)
    requires !NoDelimiter(TypeLines(env, att), boundary)
    ensures var n := DelimiterAt(TypeLines(env, att), boundary);
            && DelimiterAt(RealFile(env, att) + [""], boundary) == n < |TypeLines(env, att)| <= |RealFile(env, att)|
            && (RealFile(env, att) + [""])[..n] == TypeLines(env, att)[..n]
  {
    var rest := FileSuffix(env, att) + [""] + Chunks(Encode(att.content)) + [""];
    Rebracket(TypeLines(env, att), FileSuffix(env, att), Chunks(Encode(att.content)));
    DelimiterEarly(TypeLines(env, att), rest, boundary);
  }

  lemma {:induction false} DelimiterThere(lines: seq<string>, n: nat, boundary: string)
    requires n < |lines| && NoDelimiter(lines[..n], boundary) && Delimits(lines[n], boundary)
    ensures DelimiterAt(lines, boundary) == n
    decreases n
  {
    if n > 0 {
      assert lines[..n][0] == lines[0];
      var before := lines[1..][..n - 1];
      forall i | 0 <= i < |before| ensures !Delimits(before[i], boundary) { assert before[i] == lines[..n][i + 1]; }
      DelimiterThere(lines[1..], n - 1, boundary);
    }
  }

  lemma DelimiterEarly(a: seq<string>, b: seq<string>, boundary: string)
    requires !NoDelimiter(a, boundary)
    ensures var n := DelimiterAt(a, boundary); n < |a| && DelimiterAt(a + b, boundary) == n && (a + b)[..n] == a[..n]
  {
    var n := DelimiterAt(a, boundary);
    assert (a + b)[n] == a[n] && (a + b)[..n] == a[..n];
    DelimiterThere(a + b, n, boundary);
  }

  lemma BrokenSplitShows(env: Env, html: seq<Byte>, text: seq<Byte>, files: seq<Attachment>, bound: nat, i: nat)
    requires Sound(env) && NoCopies(env, files) && i < |files| && !Undelimited(env, files[i])
    requires Bounded(Split(MixedBody(env, html, text, files), MakeBoundary(env.mixed)), bound)
    ensures !Shown(Split(MixedBody(env, html, text, files), MakeBoundary(env.mixed)), bound, FilesOf(env, files))
  {
    var mixed, parts := MakeBoundary(env.mixed), AllParts(env, html, text, files);
    var first := FirstDelimited(env, files, i);
    var p := first + 1;
    PartIs(env, html, text, files, p);
    forall q | 0 <= q < p ensures NoDelimiter(parts[q], mixed) {
      if q > 0 { assert Undelimited(env, files[q - 1]); }
      PartHasNoDelimiter(env, html, text, files, q);
    }
    FirstInType(env, files[first], mixed);
    CollectBreaks(parts, mixed, [""], p);
    SplitOpens(Interleave(parts, mixed) + [""], mixed);
    Regroup(["--" + mixed], Interleave(parts, mixed), [""]);
    var got := Split(MixedBody(env, html, text, files), mixed);
    if got.Some? {
      assert NoCopy(env, files[first]);
      BrokenPartShowsNothing(got.value, bound, p, FilesOf(env, files));
    }
  }

  lemma SplitOpens(rest: seq<string>, boundary: string)
    ensures Split(["--" + boundary] + rest, boundary) == Collect(rest, boundary)
  {
    var lines := ["--" + boundary] + rest;
    assert lines[0] == "--" + boundary && lines[1..] == rest;
    OpenIsNotClose(boundary);
  }

  lemma MixedMail(header: seq<string>, entities: seq<Entity>, mail: Mail)
    requires entities != []
    ensures ReadMail(Multipart(header, "mixed", entities)) == Some(mail)
            <==> ReadFiles(entities[1..]) == Some(mail.files) && ReadBody(entities[0]).Some?
                 && ReadBody(entities[0]).value.(files := mail.files) == mail
  {
  }

  /** What a mixed entity shows, by what its parts show. */
  lemma MixedShown(header: seq<string>, got: Option<seq<seq<string>>>, bound: nat, e: Option<Entity>,
                   body: Entity, text: seq<Byte>, shown: Option<seq<Byte>>, mail: Mail)
    requires Bounded(got, bound)
    requires e == if got.None? || ParseParts(got.value, bound).None? then None
                  else Some(Multipart(header, "mixed", ParseParts(got.value, bound).value))
    requires Below(got, bound, mail.files, body)
    requires ReadBody(body) == Some(Mail(text, shown, []))
    ensures (e.Some? && ReadMail(e.value) == Some(mail))
            <==> Shown(got, bound, mail.files) && mail.text == text && mail.html == shown
  {
    if e.Some? && ParseParts(got.value, bound).value != [] { MixedMail(header, ParseParts(got.value, bound).value, mail); }
  }

  lemma MixedBodyReads(header: seq<string>, env: Env, html: seq<Byte>, text: seq<Byte>, sent: seq<Byte>, files: seq<Attachment>)
    requires Sound(env) && NoCopies(env, files) && sent == TextOf(env, html, text)
    requires NoEmptyLine(header) && ContentTypes(header) == [MultipartValue("mixed", MakeBoundary(env.mixed))]
    requires Fits(Encodings(header), false)
    ensures var e := ParseEntity(header + [""] + MixedBody(env, html, sent, files));
            && (e.Some? ==> e.value.header == header)
            && ((e.Some? && ReadMail(e.value) == Some(MailOf(env, html, text, files))) <==> PartsReadable(env, html, text, files))
  {
    var mixed, body, mail := MakeBoundary(env.mixed), MixedBody(env, html, sent, files), MailOf(env, html, text, files);
    var bound, got := |header + [""] + body|, Split(body, mixed);
    var shown := if Alternative(html, sent) then Some(html) else None;
    MixedParses(header, env, body);
    MixedSplitShows(env, html, sent, files, bound);
    BodyPartParses(env, html, sent);
    TextBeside(env, html, text, files);
    MixedShown(header, got, bound, ParseEntity(header + [""] + body), BodyEntity([], MakeBoundary(env.alternative), html, sent),
               sent, shown, mail);
  }

  lemma MixedParses(header: seq<string>, env: Env, body: seq<string>)
    requires NoEmptyLine(header) && ContentTypes(header) == [MultipartValue("mixed", MakeBoundary(env.mixed))]
    requires Fits(Encodings(header), false)
    ensures var bound, got := |header + [""] + body|, Split(body, MakeBoundary(env.mixed));
            && Bounded(got, bound)
            && ParseEntity(header + [""] + body) == if got.None? || ParseParts(got.value, bound).None? then None
                                                    else Some(Multipart(header, "mixed", ParseParts(got.value, bound).value))
  {
    BoundaryPlain(env.mixed);
    SubtypesPlain();
    ParseSplit(header, "mixed", MakeBoundary(env.mixed), body);
  }

  /** The HTML is shown if there is any, exactly when there is text beside it. */
  lemma TextBeside(env: Env, html: seq<Byte>, text: seq<Byte>, files: seq<Attachment>)
    ensures var sent, mail := TextOf(env, html, text), MailOf(env, html, text, files);
            && mail.text == sent && mail.files == FilesOf(env, files)
            && (mail.html == (if Alternative(html, sent) then Some(html) else None) <==> (html != [] ==> sent != []))
  {
  }

  /** A message with files, under a header that names no content type. */
  lemma MixedReads(head: seq<string>, env: Env, html: seq<Byte>, text: seq<Byte>, files: seq<Attachment>)
    requires Sound(env) && NoEmptyLine(head) && ContentTypes(head) == [] && files != [] && NoCopies(env, files)
    ensures var e := ParseEntity(head + RealTail(env, html, text, files) + [""]);
            && (e.Some? ==> SameMarks(e.value.header, head))
            && ((e.Some? && ReadMail(e.value) == Some(MailOf(env, html, text, files)))
                <==> Fits(Encodings(head), false) && PartsReadable(env, html, text, files))
  {
    var mixed, sent := MakeBoundary(env.mixed), TextOf(env, html, text);
    var header := head + [MultipartLine("mixed", mixed)];
    BoundaryPlain(env.mixed);
    SubtypesPlain();
    MultipartHead(head, "mixed", mixed);
    MixedLines(head, env, html, text, files);
    if Fits(Encodings(head), false) {
      MixedBodyReads(header, env, html, text, sent, files);
    } else {
      ParseSplit(header, "mixed", mixed, MixedBody(env, html, sent, files));
    }
  }

  lemma PlainReads(head: seq<string>, env: Env, html: seq<Byte>, text: seq<Byte>)
    requires NoEmptyLine(head) && ContentTypes(head) == []
    ensures var e := ParseEntity(head + RealTail(env, html, text, []) + [""]);
            && (e.Some? ==> SameMarks(e.value.header, head))
            && ((e.Some? && ReadMail(e.value) == Some(MailOf(env, html, text, [])))
                <==> Fits(Encodings(head), IsLeaf(env, html, text, [])) && PartsReadable(env, html, text, []))
  {
    var sent, alternative := TextOf(env, html, text), MakeBoundary(env.alternative);
    BoundaryPlain(env.alternative);
    BodyParses(head, alternative, html, sent);
    if Fits(Encodings(head), !Alternative(html, sent)) { BodyReads(head, alternative, html, sent); }
  }

  lemma MultipartTypes(subtype: string, boundary: string)
    requires Quotable(boundary) && (subtype == "mixed" || subtype == "alternative")
    ensures |ContentTypes([MultipartLine(subtype, boundary)])| == 1 && !Continues(MultipartLine(subtype, boundary))
  {
    SubtypesPlain();
    MultipartHeaderReads(subtype, boundary);
  }

  lemma TailTypes(env: Env, html: seq<Byte>, text: seq<Byte>, files: seq<Attachment>)
    ensures |ContentTypes(TailHeader(env, html, text, files))| == 1 && !Continues(TailHeader(env, html, text, files)[0])
  {
    BoundaryPlain(env.mixed);
    BoundaryPlain(env.alternative);
    MultipartTypes("mixed", MakeBoundary(env.mixed));
    MultipartTypes("alternative", MakeBoundary(env.alternative));
    TextHeader();
  }

  lemma RealTailSplits(env: Env, html: seq<Byte>, text: seq<Byte>, files: seq<Attachment>) returns (body: seq<string>)
    ensures RealTail(env, html, text, files) == TailHeader(env, html, text, files) + [""] + body
  {
    var tail := RealTail(env, html, text, files);
    var n := |TailHeader(env, html, text, files)|;
    body := tail[n + 1..];
    assert tail[..n + 1] == TailHeader(env, html, text, files) + [""];
    assert tail == tail[..n + 1] + tail[n + 1..];
  }

  /** With a second Content-Type field the message is malformed. */
  lemma {:induction false} OverrideBreaks(head: seq<string>, env: Env, html: seq<Byte>, text: seq<Byte>, files: seq<Attachment>)
    requires NoEmptyLine(head) && ContentTypes(head) != []
    ensures ParseEntity(head + RealTail(env, html, text, files) + [""]) == None
  {
    var tailHeader := TailHeader(env, html, text, files);
    var body := RealTailSplits(env, html, text, files);
    SameLines(head, tailHeader, body, head + RealTail(env, html, text, files));
    TailHeaderOneLine(env, html, text, files);
    NoEmptyConcat(head, tailHeader);
    SplitAtEmpty(head + tailHeader, body + [""]);
    TailTypes(env, html, text, files);
    FieldsConcat(head, tailHeader, TYPE);
  }

  lemma VersionOnce(others: seq<string>)
    ensures |["1.0"] + others| == 1 <==> others == []
    ensures ["1.0"] + [] == ["1.0"] && Word("1.0") == "1.0"
  {
  }

  /** What the reader makes of the lines of a message, under any head. */
  lemma LinesRead(head: seq<string>, env: Env, html: seq<Byte>, text: seq<Byte>, files: seq<Attachment>)
    requires Sound(env) && NoEmptyLine(head) && NoCopies(env, files)
    ensures var e := ParseEntity(head + RealTail(env, html, text, files) + [""]);
            && (e.Some? ==> SameMarks(e.value.header, head))
            && ((e.Some? && ReadMail(e.value) == Some(MailOf(env, html, text, files)))
                <==> && ContentTypes(head) == [] && Fits(Encodings(head), IsLeaf(env, html, text, files))
                     && PartsReadable(env, html, text, files))
  {
    if ContentTypes(head) != [] {
      OverrideBreaks(head, env, html, text, files);
    } else if files == [] {
      PlainReads(head, env, html, text);
    } else {
      MixedReads(head, env, html, text, files);
    }
  }

  lemma ReadableHoldsNoCopy(env: Env, html: seq<Byte>, text: seq<Byte>, files: seq<Attachment>)
    requires PartsReadable(env, html, text, files)
    ensures NoCopies(env, files)
  {
    forall i | 0 <= i < |files| ensures NoCopy(env, files[i]) { assert Undelimited(env, files[i]); }
  }

  /**
    Parsing undoes building, and exactly when: for all names, bodies, header maps in any iteration
    order and attachment lists with any content types, the reader recovers the text, the HTML and
    every file's encoded name and bytes, in order, if and only if the message is Readable.  Only in
    one direction must copies be set aside.
    */
  lemma {:induction false} ParsingUndoesBuilding(env: Env, from: string, fromName: string, to: string, subject: string,
                              html: seq<Byte>, text: seq<Byte>, extra: seq<(string, string)>, files: seq<Attachment>)
    requires Sound(env)
    ensures Read(Unlines(MessageLines(env, from, fromName, to, subject, html, text, extra, files)))
            == Some(MailOf(env, html, text, files)) && NoCopies(env, files)
            <==> Readable(env, html, text, extra, files)
  {
    if NoCopies(env, files) {
      MessageBroken(env, from, fromName, to, subject, html, text, extra, files);
      HeadOneLine(env, from, fromName, to, subject, extra);
      HeadReads(env, from, fromName, to, subject, extra);
      VersionOnce(Named(extra, VERSION));
      LinesRead(HeadLines(env, from, fromName, to, subject, extra), env, html, text, files);
    } else if PartsReadable(env, html, text, files) {
      ReadableHoldsNoCopy(env, html, text, files);
    }
  }

  lemma {:induction false} StripNothing(s: string)
    requires '\r' !in s && '\n' !in s && '\0' !in s
    ensures Strip(s) == s
  {
    if s != "" {
      assert s[0] in s;
      StripNothing(s[1..]);
    }
  }

  lemma EncodingKeyStays() ensures Strip(ENCODING_KEY) == ENCODING_KEY { StripNothing(ENCODING_KEY); }

  lemma QuotedPrintableStays()
    ensures Strip("quoted-printable") == "quoted-printable" && TrimLeft("quoted-printable") == "quoted-printable"
  {
    StripNothing("quoted-printable");
  }

  lemma KeptOne(key: string, value: string)
    ensures Kept([(key, value)]) == if Survives(key) then [(Strip(key), Strip(value))] else []
  {
    assert [(key, value)][1..] == [];
  }

  lemma ValuesOne(f: Field, name: string)
    ensures Values([f], name) == if Lower(f.0) == name then [TrimLeft(f.1)] else []
  {
    assert [f][1..] == [];
  }

  lemma OneExtra(key: string, value: string, name: string)
    requires Strip(key) == key && Strip(value) == value && Proper(key)
    ensures Named([(key, value)], name) == if Lower(key) == name then [TrimLeft(value)] else []
  {
    KeptOne(key, value);
    ValuesOne((key, value), name);
  }

  /** An input that fails though it overrides no content type: a second encoding on a plain message. */
  lemma {:induction false} SecondEncodingBreaks(env: Env, from: string, fromName: string, to: string, subject: string,
                                                text: seq<Byte>)
    requires Sound(env)
    ensures var extra := [(ENCODING_KEY, "quoted-printable")];
            && Named(extra, TYPE) == [] && Named(extra, ENCODING) == ["quoted-printable"]
            && Read(Unlines(MessageLines(env, from, fromName, to, subject, [], text, extra, [])))
               != Some(MailOf(env, [], text, []))
  {
    EncodingKeyStays();
    QuotedPrintableStays();
    EncodingKeyProper();
    LowerEncodingKey();
    NamesDiffer();
    OneExtra(ENCODING_KEY, "quoted-printable", TYPE);
    OneExtra(ENCODING_KEY, "quoted-printable", ENCODING);
    ParsingUndoesBuilding(env, from, fromName, to, subject, [], text, [(ENCODING_KEY, "quoted-printable")], []);
  }
}
