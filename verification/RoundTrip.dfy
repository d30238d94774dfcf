/** Parsing undoes building, part by part: what the reference reader makes of each piece. */
module RoundTrip {
  import opened Wrappers
  import opened Base64
  import opened Mime
  import opened Message
  import opened FieldReading

  // Leaves

  lemma SplitAtEmpty(header: seq<string>, body: seq<string>)
    requires NoEmptyLine(header)
    ensures var lines := header + [""] + body; var n := HeaderLength(lines);
            n == |header| && n < |lines| && lines[..n] == header && lines[n + 1..] == body
  {
    HeaderEnds(header, body);
  }

  lemma ParseLeaf(header: seq<string>, body: seq<string>)
    requires NoEmptyLine(header) && |ContentTypes(header)| == 1 && !IsMultipart(ContentTypes(header)[0])
    ensures ParseEntity(header + [""] + body) == if |Encodings(header)| <= 1 then Some(Leaf(header, body)) else None
  {
    SplitAtEmpty(header, body);
  }

  lemma {:induction false} JoinUnlines(lines: seq<string>)
    ensures Join(lines + [""]) == Unlines(lines)
  {
    if lines != [] {
      assert (lines + [""])[1..] == lines[1..] + [""];
      JoinUnlines(lines[1..]);
    }
  }

  /** A leaf body as written decodes to the bytes it was written from, if base64 is the one encoding named. */
  lemma {:induction false} LeafDecodes(header: seq<string>, content: seq<Byte>)
    requires Encodings(header) == ["base64"]
    ensures LeafBytes(Leaf(header, Chunks(Encode(content)) + [""])) == Some(content)
  {
    Base64Word();
    JoinUnlines(Chunks(Encode(content)));
    DecodeWrapped(content);
  }

  /** Boundaries are safe: no line of wrapped base64 starts with a hyphen, so none can be a delimiter. */
  lemma LeafHasNoDelimiter(header: seq<string>, content: seq<Byte>, boundary: string)
    requires NoDelimiter(header, boundary)
    ensures NoDelimiter(LeafLines(header, content) + [""], boundary)
  {
    var lines := LeafLines(header, content) + [""];
    EncodeShape(content);
    var chunks := Chunks(Encode(content));
    forall i | 0 <= i < |lines| ensures !Delimits(lines[i], boundary) {
      if i < |header| {
        assert lines[i] == header[i];
      } else if |header| < i < |header| + 1 + |chunks| {
        assert lines[i] == chunks[i - |header| - 1];
        ChunkLines(Encode(content), i - |header| - 1);
        NotHyphen(lines[i]);
        StartsWithHyphen(lines[i], boundary);
      } else {
        StartsWithHyphen(lines[i], boundary);
      }
    }
  }

  lemma PlainHeader(header: seq<string>, boundary: string)
    requires forall i :: 0 <= i < |header| ==> header[i] != "" && header[i][0] != '-'
    ensures NoDelimiter(header, boundary)
  {
    forall i | 0 <= i < |header| ensures !Delimits(header[i], boundary) { StartsWithHyphen(header[i], boundary); }
  }

  lemma TextHeadersPlain(boundary: string)
    ensures NoDelimiter([TEXT_TYPE, TRANSFER], boundary) && NoDelimiter([HTML_TYPE, TRANSFER], boundary)
  {
    assert TEXT_TYPE[0] == 'C' && HTML_TYPE[0] == 'C' && TRANSFER[0] == 'C';
    PlainHeader([TEXT_TYPE, TRANSFER], boundary);
    PlainHeader([HTML_TYPE, TRANSFER], boundary);
  }

  lemma NotHyphen(line: string)
    requires Base64Line(line)
    ensures line[0] != '-'
  {
    assert line[0] in line && !Alphabet('-');
  }

  lemma StartsWithHyphen(line: string, boundary: string)
    ensures Delimits(line, boundary) ==> line != "" && line[0] == '-'
  {
    if Delimits(line, boundary) { assert line[0] == ("--" + boundary)[0]; }
  }

  lemma DelimitedBy(line: string, x: string)
    requires Delimits(line, x)
    ensures |x| + 2 <= |line| && line[2..|x| + 2] == x
  {
    assert line[..|x| + 2] == "--" + x;
    assert line[..|x| + 2][2..] == x;
  }

  lemma OtherBoundary(x: string, y: string)
    requires |x| == |y| && x != y
    ensures !Delimits("--" + y, x) && !Delimits("--" + y + "--", x)
  {
    assert ("--" + y)[2..|y| + 2] == y && ("--" + y + "--")[2..|y| + 2] == y;
    if Delimits("--" + y, x) { DelimitedBy("--" + y, x); }
    if Delimits("--" + y + "--", x) { DelimitedBy("--" + y + "--", x); }
  }

  /** The encodings a header may name besides the builder's own: none for a leaf, an identity for a multipart. */
  predicate Fits(encodings: seq<string>, leaf: bool) {
    encodings == [] || (!leaf && |encodings| == 1 && Identity(encodings[0]))
  }

  /** A multipart entity, by what its body splits into. */
  lemma ParseSplit(header: seq<string>, subtype: string, boundary: string, body: seq<string>)
    requires NoEmptyLine(header) && ContentTypes(header) == [MultipartValue(subtype, boundary)]
    requires Quotable(boundary) && ';' !in subtype && 'b' !in subtype
    ensures var lines := header + [""] + body;
            && (Split(body, boundary).Some? ==> forall p :: p in Split(body, boundary).value ==> |p| < |lines|)
            && ParseEntity(lines) == if !Fits(Encodings(header), false) || Split(body, boundary).None? then None
                                     else match ParseParts(Split(body, boundary).value, |lines|)
                                          case None => None
                                          case Some(entities) => Some(Multipart(header, subtype, entities))
  {
    SplitAtEmpty(header, body);
    MultipartReads(subtype, boundary);
  }

  /** A multipart entity whose body interleaves the given parts. */
  lemma ParseMultipart(header: seq<string>, subtype: string, boundary: string, parts: seq<seq<string>>)
    requires NoEmptyLine(header) && ContentTypes(header) == [MultipartValue(subtype, boundary)]
    requires Quotable(boundary) && ';' !in subtype && 'b' !in subtype
    requires parts != [] && forall i :: 0 <= i < |parts| ==> NoDelimiter(parts[i], boundary)
    ensures var lines := header + [""] + (["--" + boundary] + Interleave(parts, boundary) + [""]);
            && (forall p :: p in parts ==> |p| < |lines|)
            && ParseEntity(lines) == if !Fits(Encodings(header), false) then None
                                     else match ParseParts(parts, |lines|)
                                          case None => None
                                          case Some(entities) => Some(Multipart(header, subtype, entities))
  {
    ParseSplit(header, subtype, boundary, ["--" + boundary] + Interleave(parts, boundary) + [""]);
    SplitInterleave(parts, boundary, [""]);
  }

  // The body part

  function TextLeaf(prefix: seq<string>, text: seq<Byte>): Entity {
    Leaf(prefix + [TEXT_TYPE, TRANSFER], Chunks(Encode(text)) + [""])
  }

  function HtmlLeaf(html: seq<Byte>): Entity { Leaf([HTML_TYPE, TRANSFER], Chunks(Encode(html)) + [""]) }

  lemma NotMultipart(value: string)
    requires value != "" && LowerChar(value[0]) != 'm'
    ensures !IsMultipart(value)
  {
    if |value| >= 10 { assert Lower(value[..10])[0] == LowerChar(value[0]); }
  }

  lemma NoEmptyConcat(a: seq<string>, b: seq<string>)
    requires NoEmptyLine(a) && NoEmptyLine(b)
    ensures NoEmptyLine(a + b)
  {
  }

  lemma TextIsNoMultipart()
    ensures !IsMultipart("text/plain; charset=utf-8")
  {
    NotMultipart("text/plain; charset=utf-8");
  }

  lemma HtmlIsNoMultipart()
    ensures !IsMultipart("text/html; charset=utf-8")
  {
    NotMultipart("text/html; charset=utf-8");
  }

  /** The content header of a text part, beneath whatever else its header holds. */
  predicate LeafHeader(own: seq<string>, value: string) {
    && |own| == 2 && NoEmptyLine(own) && !Continues(own[0])
    && ContentTypes(own) == [value] && Encodings(own) == ["base64"] && Unmarked(own) && !IsMultipart(value)
  }

  lemma TextHeader()
    ensures LeafHeader([TEXT_TYPE, TRANSFER], "text/plain; charset=utf-8")
  {
    LeafHeaderReads("text/plain; charset=utf-8");
    TextIsNoMultipart();
    TextNeedsNoTrim();
  }

  lemma HtmlHeader()
    ensures LeafHeader([HTML_TYPE, TRANSFER], "text/html; charset=utf-8")
  {
    LeafHeaderReads("text/html; charset=utf-8");
    HtmlIsNoMultipart();
    HtmlNeedsNoTrim();
  }

  lemma TextNeedsNoTrim() ensures TrimLeft("text/plain; charset=utf-8") == "text/plain; charset=utf-8" {}
  lemma HtmlNeedsNoTrim() ensures TrimLeft("text/html; charset=utf-8") == "text/html; charset=utf-8" {}

  lemma CharsetReads(before: string)
    requires 'c' !in before
    ensures Parameter(before + "charset=" + "utf-8", "charset") == Some("utf-8")
  {
    assert "charset" + "=" == "charset=";
    AfterFinds(before, "charset=", "utf-8");
    UpToAll();
  }

  lemma UpToAll() ensures UpTo("utf-8", ';') == "utf-8" {}

  lemma PlainLower() ensures Lower("text/plain") == "text/plain" {}
  lemma PlainSplits() ensures "text/plain; charset=utf-8" == "text/plain" + "; charset=utf-8" {}
  lemma PlainCharset() ensures "text/plain; charset=utf-8" == "text/plain; " + "charset=" + "utf-8" {}
  lemma PlainNoC() ensures 'c' !in "text/plain; " {}

  lemma PlainWord()
    ensures Word("text/plain; charset=utf-8") == "text/plain"
  {
    PlainSplits();
    WordStops("text/plain", "; charset=utf-8");
  }

  lemma PlainTyped()
    ensures Lower(Word("text/plain; charset=utf-8")) == PLAIN
    ensures Parameter("text/plain; charset=utf-8", "charset") == Some("utf-8")
  {
    PlainWord();
    PlainLower();
    PlainCharset();
    PlainNoC();
    CharsetReads("text/plain; ");
  }

  lemma HtmlLower() ensures Lower("text/html") == "text/html" {}
  lemma HtmlSplits() ensures "text/html; charset=utf-8" == "text/html" + "; charset=utf-8" {}
  lemma HtmlCharset() ensures "text/html; charset=utf-8" == "text/html; " + "charset=" + "utf-8" {}
  lemma HtmlNoC() ensures 'c' !in "text/html; " {}

  lemma HtmlWord()
    ensures Word("text/html; charset=utf-8") == "text/html"
  {
    HtmlSplits();
    WordStops("text/html", "; charset=utf-8");
  }

  lemma HtmlTyped()
    ensures Lower(Word("text/html; charset=utf-8")) == HTML
    ensures Parameter("text/html; charset=utf-8", "charset") == Some("utf-8")
  {
    HtmlWord();
    HtmlLower();
    HtmlCharset();
    HtmlNoC();
    CharsetReads("text/html; ");
  }

  lemma OneTypeParses(prefix: seq<string>, own: seq<string>, value: string, content: seq<Byte>)
    requires NoEmptyLine(prefix) && ContentTypes(prefix) == [] && LeafHeader(own, value)
    ensures Encodings(prefix + own) == Encodings(prefix) + ["base64"]
    ensures SameMarks(prefix + own, prefix) && ContentTypes(prefix + own) == [value]
    ensures ParseEntity(prefix + LeafLines(own, content) + [""])
         == if Fits(Encodings(prefix), true) then Some(Leaf(prefix + own, Chunks(Encode(content)) + [""])) else None
  {
    var chunks := Chunks(Encode(content));
    FieldsConcat(prefix, own, TYPE);
    FieldsConcat(prefix, own, ENCODING);
    MarksKept(prefix, own);
    EmptyFirst(ContentTypes(own));
    NoEmptyConcat(prefix, own);
    ParseLeaf(prefix + own, chunks + [""]);
    LeafGroups(prefix, own, chunks);
  }

  lemma TextParses(prefix: seq<string>, text: seq<Byte>)
    requires NoEmptyLine(prefix) && ContentTypes(prefix) == []
    ensures ParseEntity(prefix + LeafLines([TEXT_TYPE, TRANSFER], text) + [""])
         == if Fits(Encodings(prefix), true) then Some(TextLeaf(prefix, text)) else None
    ensures Fits(Encodings(prefix), true) ==> TextBytes(TextLeaf(prefix, text), PLAIN) == Some(text)
    ensures SameMarks(TextLeaf(prefix, text).header, prefix)
  {
    TextHeader();
    PlainTyped();
    OneTypeParses(prefix, [TEXT_TYPE, TRANSFER], "text/plain; charset=utf-8", text);
    if Fits(Encodings(prefix), true) {
      EmptyFirst(["base64"]);
      LeafDecodes(prefix + [TEXT_TYPE, TRANSFER], text);
    }
  }

  lemma LeafGroups(prefix: seq<string>, own: seq<string>, chunks: seq<string>)
    ensures prefix + (own + [""] + chunks) + [""] == prefix + own + [""] + (chunks + [""])
  {
  }

  lemma NothingFits(header: seq<string>)
    requires header == []
    ensures NoEmptyLine(header) && ContentTypes(header) == [] && Encodings(header) == []
  {
  }

  lemma TextAlone(text: seq<Byte>)
    ensures ParseEntity(LeafLines([TEXT_TYPE, TRANSFER], text) + [""]) == Some(TextLeaf([], text))
    ensures TextBytes(TextLeaf([], text), PLAIN) == Some(text)
  {
    NothingFits([]);
    TextParses([], text);
    EmptyFirst(LeafLines([TEXT_TYPE, TRANSFER], text));
  }

  lemma HtmlAlone(html: seq<Byte>)
    ensures ParseEntity(LeafLines([HTML_TYPE, TRANSFER], html) + [""]) == Some(HtmlLeaf(html))
    ensures TextBytes(HtmlLeaf(html), HTML) == Some(html)
  {
    var own := [HTML_TYPE, TRANSFER];
    HtmlHeader();
    HtmlTyped();
    NothingFits([]);
    OneTypeParses([], own, "text/html; charset=utf-8", html);
    EmptyFirst(own);
    EmptyFirst(LeafLines(own, html));
    LeafDecodes(own, html);
  }

  function BodyEntity(prefix: seq<string>, boundary: string, html: seq<Byte>, text: seq<Byte>): Entity {
    if Alternative(html, text) then
      Multipart(prefix + [MultipartLine("alternative", boundary)], "alternative", [TextLeaf([], text), HtmlLeaf(html)])
    else TextLeaf(prefix, text)
  }

  lemma AlternativeGroups(prefix: seq<string>, m: string, d: string, c: string, a: seq<string>, b: seq<string>)
    ensures prefix + ([m, "", d] + a + ["", d] + b + ["", c]) + [""]
         == prefix + [m] + [""] + ([d] + (a + [""] + [d] + (b + [""] + [c])) + [""])
  {
  }

  lemma MultipartHead(prefix: seq<string>, subtype: string, boundary: string)
    requires NoEmptyLine(prefix) && ContentTypes(prefix) == []
    requires Quotable(boundary) && ';' !in subtype && 'b' !in subtype
    ensures var header := prefix + [MultipartLine(subtype, boundary)];
            && NoEmptyLine(header) && ContentTypes(header) == [MultipartValue(subtype, boundary)]
            && Encodings(header) == Encodings(prefix) && SameMarks(header, prefix)
  {
    var own := [MultipartLine(subtype, boundary)];
    MultipartHeaderReads(subtype, boundary);
    FieldsConcat(prefix, own, TYPE);
    FieldsConcat(prefix, own, ENCODING);
    MarksKept(prefix, own);
    EmptyFirst([MultipartValue(subtype, boundary)]);
    assert Encodings(prefix) + [] == Encodings(prefix);
  }

  lemma PairParses(a: seq<string>, b: seq<string>, x: Entity, y: Entity, bound: nat)
    requires |a| < bound && |b| < bound && ParseEntity(a) == Some(x) && ParseEntity(b) == Some(y)
    ensures ParseParts([a, b], bound) == Some([x, y])
  {
    OnePartParses(b, y, bound);
    assert [a, b][1..] == [b] && [x] + [y] == [x, y];
  }

  lemma OnePartParses(b: seq<string>, y: Entity, bound: nat)
    requires |b| < bound && ParseEntity(b) == Some(y)
    ensures ParseParts([b], bound) == Some([y])
  {
    assert [b][0] == b && [b][1..] == [];
    assert ParseParts([b][1..], bound) == Some([]);
    assert [y] + [] == [y];
  }

  lemma AlternativeParses(head: seq<string>, boundary: string, html: seq<Byte>, text: seq<Byte>)
    requires NoEmptyLine(head) && ContentTypes(head) == [MultipartValue("alternative", boundary)] && Quotable(boundary)
    ensures var a, b := LeafLines([TEXT_TYPE, TRANSFER], text) + [""], LeafLines([HTML_TYPE, TRANSFER], html) + [""];
            ParseEntity(head + [""] + (["--" + boundary] + Interleave([a, b], boundary) + [""]))
            == if !Fits(Encodings(head), false) then None
               else Some(Multipart(head, "alternative", [TextLeaf([], text), HtmlLeaf(html)]))
  {
    var a, b := LeafLines([TEXT_TYPE, TRANSFER], text), LeafLines([HTML_TYPE, TRANSFER], html);
    var parts := [a + [""], b + [""]];
    TextHeadersPlain(boundary);
    LeafHasNoDelimiter([TEXT_TYPE, TRANSFER], text, boundary);
    LeafHasNoDelimiter([HTML_TYPE, TRANSFER], html, boundary);
    SubtypesPlain();
    ParseMultipart(head, "alternative", boundary, parts);
    var lines := head + [""] + (["--" + boundary] + Interleave(parts, boundary) + [""]);
    TextAlone(text);
    HtmlAlone(html);
    assert parts[0] in parts && parts[1] in parts;
    PairParses(parts[0], parts[1], TextLeaf([], text), HtmlLeaf(html), |lines|);
  }

  lemma SubtypesPlain()
    ensures ';' !in "alternative" && 'b' !in "alternative" && ';' !in "mixed" && 'b' !in "mixed"
  {
  }

  lemma AlternativeLines(prefix: seq<string>, boundary: string, html: seq<Byte>, text: seq<Byte>)
    requires Alternative(html, text)
    ensures var a, b := LeafLines([TEXT_TYPE, TRANSFER], text) + [""], LeafLines([HTML_TYPE, TRANSFER], html) + [""];
            prefix + BodyLines(boundary, html, text) + [""]
            == prefix + [MultipartLine("alternative", boundary)] + [""]
               + (["--" + boundary] + Interleave([a, b], boundary) + [""])
  {
    var a, b := LeafLines([TEXT_TYPE, TRANSFER], text), LeafLines([HTML_TYPE, TRANSFER], html);
    TwoParts(a + [""], b + [""], boundary);
    AlternativeGroups(prefix, MultipartLine("alternative", boundary), "--" + boundary, "--" + boundary + "--", a, b);
  }

  lemma BodyParses(prefix: seq<string>, boundary: string, html: seq<Byte>, text: seq<Byte>)
    requires NoEmptyLine(prefix) && ContentTypes(prefix) == [] && Quotable(boundary)
    ensures ParseEntity(prefix + BodyLines(boundary, html, text) + [""])
         == if Fits(Encodings(prefix), !Alternative(html, text)) then Some(BodyEntity(prefix, boundary, html, text)) else None
    ensures SameMarks(BodyEntity(prefix, boundary, html, text).header, prefix)
  {
    if Alternative(html, text) {
      SubtypesPlain();
      MultipartHead(prefix, "alternative", boundary);
      AlternativeParses(prefix + [MultipartLine("alternative", boundary)], boundary, html, text);
      AlternativeLines(prefix, boundary, html, text);
    } else {
      TextParses(prefix, text);
      assert BodyLines(boundary, html, text) == LeafLines([TEXT_TYPE, TRANSFER], text);
      assert BodyEntity(prefix, boundary, html, text) == TextLeaf(prefix, text);
    }
  }

  lemma TwoParts(a: seq<string>, b: seq<string>, boundary: string)
    ensures Interleave([a, b], boundary) == a + ["--" + boundary] + (b + ["--" + boundary + "--"])
  {
    assert [a, b][1..] == [b];
  }

  /** The body part shows the text, and the HTML only beside a non-empty text. */
  lemma BodyReads(prefix: seq<string>, boundary: string, html: seq<Byte>, text: seq<Byte>)
    requires NoEmptyLine(prefix) && ContentTypes(prefix) == [] && Fits(Encodings(prefix), !Alternative(html, text))
    ensures ReadBody(BodyEntity(prefix, boundary, html, text))
         == Some(Mail(text, if Alternative(html, text) then Some(html) else None, []))
  {
    if Alternative(html, text) {
      TextAlone(text);
      HtmlAlone(html);
    } else {
      TextParses(prefix, text);
    }
  }
}
