/**
  The part of one attached file, for every content type a caller may give.  The builder does not
  sanitise the type, so it may hold line breaks; the reader sees the lines that result.
  */
module FileParts {
  import opened Wrappers
  import opened Base64
  import opened Mime
  import opened Message
  import opened HeaderBlock
  import opened FieldReading
  import opened RoundTrip

  function NameOf(env: Env, att: Attachment): string { env.qencode(att.filename) }

  function TypeText(env: Env, att: Attachment): string {
    "Content-Type: " + TypeOf(att) + "; name=\"" + NameOf(env, att) + "\""
  }

  /** The lines that the type line turns into. */
  function TypeLines(env: Env, att: Attachment): seq<string> { Lines(TypeText(env, att)) }

  /** The two lines the builder writes below the type. */
  function FileSuffix(env: Env, att: Attachment): seq<string> { [ATTACHED + (NameOf(env, att) + "\""), TRANSFER] }

  function RealHeader(env: Env, att: Attachment): seq<string> { TypeLines(env, att) + FileSuffix(env, att) }

  function RealFile(env: Env, att: Attachment): seq<string> { LeafLines(RealHeader(env, att), att.content) }

  lemma SuffixOneLine(env: Env, att: Attachment)
    requires OneLine(NameOf(env, att))
    ensures AllOneLine(FileSuffix(env, att))
  {
    TransferOneLine();
    DispositionOneLine();
    OneLineConcat(NameOf(env, att), "\"");
    OneLineConcat(ATTACHED, NameOf(env, att) + "\"");
  }

  /** What the reader finds of a file part. */
  lemma FileBroken(env: Env, att: Attachment)
    requires OneLine(NameOf(env, att))
    ensures Broken(FileLines(env, att)) == RealFile(env, att)
  {
    var body := [""] + Chunks(Encode(att.content));
    SuffixOneLine(env, att);
    ChunksOneLine(att.content);
    Regroup(ATTACHED, NameOf(env, att), "\"");
    assert FileLines(env, att) == [TypeText(env, att)] + (FileSuffix(env, att) + body);
    assert AllOneLine(FileSuffix(env, att) + body);
    Unbreakable(FileSuffix(env, att) + body);
    BrokenConcat([TypeText(env, att)], FileSuffix(env, att) + body);
    BrokenOne(TypeText(env, att));
    assert TypeLines(env, att) + (FileSuffix(env, att) + body) == RealFile(env, att);
  }

  lemma BrokenOne(line: string)
    ensures Broken([line]) == Lines(line)
  {
    assert [line][1..] == [] && Broken([]) == [];
  }

  // The header of the part

  lemma {:induction false} FirstOf(prefix: string, rest: string)
    requires OneLine(prefix)
    ensures Lines(prefix + rest)[0] == prefix + Lines(rest)[0] && Lines(prefix + rest)[1..] == Lines(rest)[1..]
  {
    if prefix == "" {
      assert prefix + rest == rest;
    } else {
      assert (prefix + rest)[0] == prefix[0] && (prefix + rest)[1..] == prefix[1..] + rest;
      FirstOf(prefix[1..], rest);
      assert [prefix[0]] + (prefix[1..] + Lines(rest)[0]) == prefix + Lines(rest)[0];
    }
  }

  lemma TypeOpens(env: Env, att: Attachment)
    ensures var first := TypeLines(env, att)[0];
            first != "" && first[0] != '-' && !Continues(first) && IsField(first, TYPE)
  {
    var rest := TypeOf(att) + ("; name=\"" + NameOf(env, att) + "\"");
    FileTypeLine(TypeOf(att), NameOf(env, att));
    TypePrefixOneLine();
    FirstOf("Content-Type: ", rest);
    TypeKeyLine(Lines(rest)[0]);
    TypeKeyProper();
    ProperLine((TYPE_KEY, Lines(rest)[0]));
    LowerTypeKey();
    NamesHaveNoColon();
    KeyDecides(TYPE_KEY, Lines(rest)[0], TYPE);
    assert TYPE_KEY[0] == 'C';
  }

  lemma TypePrefixOneLine() ensures OneLine("Content-Type: ") {}

  lemma FileTypeLine(ct: string, name: string)
    ensures "Content-Type: " + ct + "; name=\"" + name + "\"" == "Content-Type: " + (ct + ("; name=\"" + name + "\""))
  {
  }

  lemma TypeNamed(env: Env, att: Attachment)
    ensures ContentTypes(TypeLines(env, att)) != []
  {
    TypeOpens(env, att);
  }

  lemma SuffixReads(env: Env, att: Attachment)
    ensures var suffix := FileSuffix(env, att);
            && ContentTypes(suffix) == [] && Encodings(suffix) == ["base64"]
            && Fields(suffix, DISPOSITION) == ["attachment; filename=\"" + (NameOf(env, att) + "\"")]
            && !Continues(suffix[0]) && NoEmptyLine(suffix)
  {
    var a, b := [ATTACHED + (NameOf(env, att) + "\"")], [TRANSFER];
    AttachedReads(NameOf(env, att) + "\"");
    TransferReads();
    FieldsConcat(a, b, TYPE);
    FieldsConcat(a, b, ENCODING);
    FieldsConcat(a, b, DISPOSITION);
    assert a + b == FileSuffix(env, att);
  }

  /** The header holds what the type's own lines say, and below it what the builder says. */
  lemma RealHeaderReads(env: Env, att: Attachment)
    ensures var header, own := RealHeader(env, att), TypeLines(env, att);
            && ContentTypes(header) == ContentTypes(own)
            && Encodings(header) == Encodings(own) + ["base64"]
            && Fields(header, DISPOSITION) == Fields(own, DISPOSITION) + ["attachment; filename=\"" + (NameOf(env, att) + "\"")]
  {
    var own, suffix := TypeLines(env, att), FileSuffix(env, att);
    SuffixReads(env, att);
    FieldsConcat(own, suffix, TYPE);
    FieldsConcat(own, suffix, ENCODING);
    FieldsConcat(own, suffix, DISPOSITION);
    assert ContentTypes(own) + [] == ContentTypes(own);
  }

  // Parsing the part

  /** The type keeps the part's header in one piece, is the only one, no multipart, and names no encoding. */
  predicate PlainType(env: Env, att: Attachment) {
    var own := TypeLines(env, att);
    && NoEmptyLine(own) && Encodings(own) == []
    && |ContentTypes(own)| == 1 && !IsMultipart(ContentTypes(own)[0])
  }

  function FileEntity(env: Env, att: Attachment): Entity {
    Leaf(RealHeader(env, att), Chunks(Encode(att.content)) + [""])
  }

  lemma UnbrokenHeaderParses(env: Env, att: Attachment)
    requires NoEmptyLine(TypeLines(env, att))
    ensures ParseEntity(RealFile(env, att) + [""]) == if PlainType(env, att) then Some(FileEntity(env, att)) else None
  {
    var header, chunks := RealHeader(env, att), Chunks(Encode(att.content));
    TypeNamed(env, att);
    SuffixReads(env, att);
    RealHeaderReads(env, att);
    NoEmptyConcat(TypeLines(env, att), FileSuffix(env, att));
    SplitAtEmpty(header, chunks + [""]);
    Regroup(header + [""], chunks, [""]);
    Base64Word();
    EmptyFirst(["base64"]);
    SecondEncoding(Encodings(TypeLines(env, att)));
  }

  lemma SecondEncoding(others: seq<string>)
    ensures |others + ["base64"]| == |others| + 1 && (others == [] ==> others + ["base64"] == ["base64"])
  {
  }

  lemma {:induction false} HeaderStops(a: seq<string>, b: seq<string>)
    ensures HeaderLength(a) < |a| <==> !NoEmptyLine(a)
    ensures HeaderLength(a) < |a| ==> HeaderLength(a + b) == HeaderLength(a)
  {
    if a != [] {
      assert (a + b)[0] == a[0] && (a + b)[1..] == a[1..] + b;
      HeaderStops(a[1..], b);
      assert forall i :: 0 <= i < |a[1..]| ==> a[1..][i] == a[i + 1];
      if !NoEmptyLine(a) && a[0] != "" {
        var i :| 0 <= i < |a| && a[i] == "";
        assert a[1..][i - 1] == "";
      }
    }
  }

  lemma {:induction false} JoinHolds(lines: seq<string>, i: nat, c: char)
    requires i < |lines| && c in lines[i]
    ensures c in Join(lines)
  {
    if |lines| > 1 && i > 0 { JoinHolds(lines[1..], i - 1, c); }
  }

  lemma {:induction false} UnbrokenHolds(t: string, c: char)
    requires c in t && c != '\r' && c != '\n'
    ensures c in Unbroken(t)
  {
    if t[0] != c { UnbrokenHolds(t[1..], c); }
  }

  lemma {:induction false} DecodesAlphabet(t: string)
    requires DecodeClean(t).Some?
    ensures forall c :: c in t ==> Alphabet(c)
    decreases |t|
  {
    if t != "" {
      DecodesAlphabet(t[4..]);
      assert t == t[..4] + t[4..];
      QuantumAlphabet(t[..4], |t| == 4);
    }
  }

  lemma QuantumAlphabet(t: string, last: bool)
    requires |t| == 4 && Quantum(t, last).Some?
    ensures forall c :: c in t ==> Alphabet(c)
  {
    assert Alphabet(t[0]) && Alphabet(t[1]) && Alphabet(t[2]) && Alphabet(t[3]);
  }

  lemma ColonSpoils(lines: seq<string>, i: nat)
    requires i < |lines| && ':' in lines[i]
    ensures Decode(Join(lines)) == None
  {
    JoinHolds(lines, i, ':');
    UnbrokenHolds(Join(lines), ':');
    assert !Alphabet(':');
    if Decode(Join(lines)).Some? { DecodesAlphabet(Unbroken(Join(lines))); }
  }

  /** A header cut short by an empty line, with more field lines below: no leaf that decodes. */
  lemma CutHeaderLosesBytes(own: seq<string>, rest: seq<string>)
    requires !NoEmptyLine(own) && rest != [] && ':' in rest[0]
    ensures var e := ParseEntity(own + rest); e.Some? ==> LeafBytes(e.value) == None
  {
    var lines, n := own + rest, HeaderLength(own);
    HeaderStops(own, rest);
    var body := lines[n + 1..];
    assert body[|own| - n - 1] == rest[0];
    ColonSpoils(body, |own| - n - 1);
    var e := ParseEntity(lines);
    assert e.Some? && e.value.Leaf? ==> e.value.body == body;
  }

  lemma SuffixHasColon(rest: string)
    ensures ':' in ATTACHED + rest
  {
    AttachedLine(rest);
    assert Line((DISPOSITION_KEY, "attachment; filename=\"" + rest))[|DISPOSITION_KEY|] == ':';
  }

  /** An empty line in the type leaves the builder's own fields in the body, which then never decodes. */
  lemma BrokenHeaderLosesBytes(env: Env, att: Attachment)
    requires !NoEmptyLine(TypeLines(env, att))
    ensures var e := ParseEntity(RealFile(env, att) + [""]); e.Some? ==> LeafBytes(e.value) == None
  {
    var own, chunks := TypeLines(env, att), Chunks(Encode(att.content));
    var rest := FileSuffix(env, att) + [""] + chunks + [""];
    SuffixHasColon(NameOf(env, att) + "\"");
    Rebracket(own, FileSuffix(env, att), chunks);
    CutHeaderLosesBytes(own, rest);
  }

  lemma Rebracket(own: seq<string>, suffix: seq<string>, chunks: seq<string>)
    ensures (own + suffix) + [""] + chunks + [""] == own + (suffix + [""] + chunks + [""])
  {
  }

  /**
    The bytes of a file part come back, for every content type whatever, if and only if the lines it
    turns into hold no empty line, one content type that is no multipart, and no encoding.
    */
  lemma {:induction false} PartBytesBack(env: Env, att: Attachment)
    requires OneLine(NameOf(env, att))
    ensures var e := ParseEntity(Broken(FileLines(env, att)) + [""]);
            (e.Some? && LeafBytes(e.value) == Some(att.content)) <==> PlainType(env, att)
  {
    FileBroken(env, att);
    if NoEmptyLine(TypeLines(env, att)) {
      UnbrokenHeaderParses(env, att);
      if PlainType(env, att) {
        RealHeaderReads(env, att);
        EmptyFirst(["base64"]);
        LeafDecodes(RealHeader(env, att), att.content);
      }
    } else {
      BrokenHeaderLosesBytes(env, att);
    }
  }

  /** In particular, a type with a blank line in it always loses the bytes. */
  lemma {:induction false} BlankLineInType(env: Env, att: Attachment, t: string, rest: string)
    requires OneLine(NameOf(env, att)) && att.contentType == t + CRLF + CRLF + rest
    ensures var e := ParseEntity(Broken(FileLines(env, att)) + [""]); e.Some? ==> LeafBytes(e.value) != Some(att.content)
  {
    var end := rest + ("; name=\"" + NameOf(env, att) + "\"");
    PartBytesBack(env, att);
    TypeSplits3("Content-Type: ", t, rest, "; name=\"" + NameOf(env, att) + "\"");
    assert TypeText(env, att) == ("Content-Type: " + t) + CRLF + ("" + CRLF + end);
    LinesOfText("Content-Type: " + t, "" + CRLF + end);
    LinesOfText("", end);
    var before := Lines("Content-Type: " + t);
    assert TypeLines(env, att)[|before|] == "";
  }

  lemma TypeSplits3(a: string, t: string, rest: string, b: string)
    ensures a + (t + CRLF + CRLF + rest) + b == (a + t) + CRLF + ("" + CRLF + (rest + b))
  {
  }

  // Reading the part as a file

  predicate PartShows(lines: seq<string>, file: File) {
    var e := ParseEntity(lines); e.Some? && ReadFile(e.value) == Some(file)
  }

  /** What a caller must see to for a file: a plain type, that marks no disposition, and a name without quotes. */
  predicate FileReadable(env: Env, att: Attachment) {
    PlainType(env, att) && Fields(TypeLines(env, att), DISPOSITION) == [] && Quotable(NameOf(env, att))
  }

  lemma AttachmentWord(rest: string)
    ensures Lower(Word("attachment; filename=\"" + rest)) == "attachment"
  {
    WordStops("attachment", "; filename=\"" + rest);
    assert "attachment; filename=\"" == "attachment" + "; filename=\"";
    assert "attachment; filename=\"" + rest == "attachment" + ("; filename=\"" + rest);
    LowerWord("attachment", "attachment");
  }

  lemma NameParameter(name: string)
    ensures Parameter("attachment; filename=\"" + (name + "\""), "filename") == Unquote(name + "\"")
  {
    var before, pattern, rest := "attachment; ", "filename=", "\"" + (name + "\"");
    FilenamePattern();
    assert "attachment; filename=\"" + (name + "\"") == before + pattern + rest;
    AfterFinds(before, pattern, rest);
    assert rest[1..] == name + "\"";
  }

  lemma FilenamePattern()
    ensures "filename" + "=" == "filename=" && 'f' !in "attachment; "
    ensures "attachment; filename=\"" == "attachment; " + "filename=" + "\""
  {
  }

  lemma NameReads(env: Env, att: Attachment)
    ensures FileName(RealHeader(env, att)) == Some(NameOf(env, att))
            <==> Fields(TypeLines(env, att), DISPOSITION) == [] && Quotable(NameOf(env, att))
  {
    var name := NameOf(env, att);
    var others, own := Fields(TypeLines(env, att), DISPOSITION), "attachment; filename=\"" + (name + "\"");
    RealHeaderReads(env, att);
    if others == [] {
      EmptyFirst([own]);
      AttachmentWord(name + "\"");
      NameParameter(name);
      UnquoteIff(name);
    } else {
      assert |others + [own]| > 1;
    }
  }

  /** A file part shows the file's encoded name and its bytes exactly when the file is readable. */
  lemma {:induction false} FileShows(env: Env, att: Attachment)
    requires OneLine(NameOf(env, att))
    ensures PartShows(RealFile(env, att) + [""], File(NameOf(env, att), att.content)) <==> FileReadable(env, att)
  {
    FileBroken(env, att);
    PartBytesBack(env, att);
    NameReads(env, att);
    if NoEmptyLine(TypeLines(env, att)) { UnbrokenHeaderParses(env, att); }
  }

  // Types of one line, which are the usual ones

  predicate MultipartType(att: Attachment) { IsMultipart(TrimLeft(TypeOf(att))) }

  lemma {:induction false} TrimLeftConcat(s: string, rest: string)
    requires rest != "" && rest[0] == ';'
    ensures TrimLeft(s + rest) == TrimLeft(s) + rest
  {
    if s == "" {
      assert s + rest == rest && TrimLeft(rest) == rest && TrimLeft(s) == "";
    } else {
      assert (s + rest)[0] == s[0] && (s + rest)[1..] == s[1..] + rest;
      TrimLeftConcat(s[1..], rest);
    }
  }

  /** The name parameter does not change whether a type is a multipart. */
  lemma NameKeepsType(value: string, rest: string)
    requires rest != "" && rest[0] == ';'
    ensures IsMultipart(TrimLeft(value + rest)) <==> IsMultipart(TrimLeft(value))
  {
    TrimLeftConcat(value, rest);
    var v := TrimLeft(value);
    var long := v + rest;
    if |v| >= 10 {
      assert long[..10] == v[..10];
    } else if IsMultipart(long) {
      assert long[|v|] == ';';
      assert Lower(long[..10])[|v|] == ';';
      NoSemicolon(|v|);
    }
  }

  lemma NoSemicolon(i: nat)
    requires i < 10
    ensures MULTIPART[i] != ';'
  {
  }

  lemma TypeOneLine(env: Env, att: Attachment)
    requires OneLine(NameOf(env, att)) && OneLine(att.contentType)
    ensures TypeLines(env, att) == [TypeText(env, att)]
  {
    OneLineThree("Content-Type: ", TypeOf(att), "; name=\"");
    OneLineThree("Content-Type: " + TypeOf(att) + "; name=\"", NameOf(env, att), "\"");
    OneLineAlone(TypeText(env, att));
  }

  /** With a type of one line, a file is readable exactly if it is no multipart and its name needs no quoting. */
  lemma OneLineTypeReadable(env: Env, att: Attachment)
    requires OneLine(NameOf(env, att)) && OneLine(att.contentType)
    ensures FileReadable(env, att) <==> !MultipartType(att) && Quotable(NameOf(env, att))
  {
    var rest := "; name=\"" + NameOf(env, att) + "\"";
    TypeOneLine(env, att);
    FileTypeLine(TypeOf(att), NameOf(env, att));
    TypeReads(TypeOf(att) + rest);
    NoDispositionInType(TypeOf(att) + rest);
    NameKeepsType(TypeOf(att), rest);
  }

  /** Such a type comes back as it was given, with the name beside it; no type at all means bytes of any kind. */
  lemma TypeComesBack(env: Env, att: Attachment)
    requires OneLine(env.qencode(att.filename)) && OneLine(att.contentType)
    ensures var e := ParseEntity(Broken(FileLines(env, att)) + [""]);
            var kind := if att.contentType == "" then "application/octet-stream" else att.contentType;
            e.Some? ==> ContentTypes(e.value.header) == [TrimLeft(kind + ("; name=\"" + env.qencode(att.filename) + "\""))]
  {
    var rest := "; name=\"" + NameOf(env, att) + "\"";
    FileBroken(env, att);
    TypeOneLine(env, att);
    FileTypeLine(TypeOf(att), NameOf(env, att));
    TypeReads(TypeOf(att) + rest);
    TypeOpens(env, att);
    UnbrokenHeaderParses(env, att);
    RealHeaderReads(env, att);
  }

  lemma NoDispositionInType(value: string)
    ensures Fields(["Content-Type: " + value], DISPOSITION) == []
  {
    TypeKeyLine(value);
    TypeKeyProper();
    NamesHaveNoColon();
    KeysApart();
    OtherName(TYPE_KEY, value, DISPOSITION);
  }
}
