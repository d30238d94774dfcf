/**
  Attachments from the request to the wire: the checks of send.go, the decoding of worker.go and
  the envelope of message.go.
  */
module Send {
  import opened Wrappers
  import opened Base64
  import opened Mime
  import opened Message
  import opened HeaderBlock
  import opened ParseBack

  const MAX_FILES: nat := 10
  const MAX_EACH: nat := 10 * 1024 * 1024
  const MAX_TOTAL: nat := 15 * 1024 * 1024

  /** An attachment as the caller sends it and as the row stores it: content is base64 text. */
  datatype Upload = Upload(filename: string, contentType: string, content: string)

  datatype Refusal = TooMany | NoName(i: nat) | BadBase64(i: nat) | TooLarge(i: nat) | TotalTooLarge

  function Size(u: Upload): nat { match Decode(u.content) case None => 0 case Some(bytes) => |bytes| }

  function Total(uploads: seq<Upload>, measure: Upload -> nat): nat {
    if uploads == [] then 0 else Total(uploads[..|uploads| - 1], measure) + measure(uploads[|uploads| - 1])
  }

  function TotalSize(uploads: seq<Upload>): nat { Total(uploads, Size) }

  lemma TotalStep(uploads: seq<Upload>, measure: Upload -> nat, i: nat)
    requires i < |uploads|
    ensures Total(uploads[..i + 1], measure) == Total(uploads[..i], measure) + measure(uploads[i])
  {
    assert uploads[..i + 1][..i] == uploads[..i];
  }

  predicate Fine(u: Upload) { u.filename != "" && Decode(u.content).Some? && Size(u) <= MAX_EACH }

  predicate Acceptable(uploads: seq<Upload>) {
    |uploads| <= MAX_FILES && (forall i :: 0 <= i < |uploads| ==> Fine(uploads[i])) && TotalSize(uploads) <= MAX_TOTAL
  }

  /** The checks on one attachment, in order. */
  method Check(u: Upload, i: nat) returns (refusal: Option<Refusal>)
    ensures refusal.None? <==> Fine(u)
    ensures refusal.Some? ==> Explains(refusal.value, u, i)
  {
    if u.filename == "" {
      return Some(NoName(i));
    }
    var decoded := Decode(u.content);
    if decoded.None? {
      return Some(BadBase64(i));
    }
    if |decoded.value| > MAX_EACH {
      return Some(TooLarge(i));
    }
    refusal := None;
  }

  /** The refusal names attachment i and what is wrong with it. */
  predicate Explains(refusal: Refusal, u: Upload, i: nat) {
    match refusal
    case NoName(k) => k == i && u.filename == ""
    case BadBase64(k) => k == i && u.filename != "" && Decode(u.content).None?
    case TooLarge(k) => k == i && u.filename != "" && Size(u) > MAX_EACH
    case _ => false
  }

  /** The attachment checks of SendEmail, with the first reason for a refusal. */
  method Validate(uploads: seq<Upload>) returns (refusal: Option<Refusal>)
    ensures refusal.None? <==> Acceptable(uploads)
    ensures refusal.None? <==>
              && |uploads| <= 10 && TotalSize(uploads) <= 15 * 1024 * 1024
              && forall i :: 0 <= i < |uploads| ==>
                   && uploads[i].filename != "" && Decode(uploads[i].content).Some?
                   && |Decode(uploads[i].content).value| <= 10 * 1024 * 1024
    ensures refusal == Some(TooMany) <==> |uploads| > 10
    ensures refusal.Some? && !refusal.value.TooMany? && !refusal.value.TotalTooLarge? ==>
              exists i :: 0 <= i < |uploads| && Explains(refusal.value, uploads[i], i)
                          && forall j :: 0 <= j < i ==> Fine(uploads[j])
    ensures refusal == Some(TotalTooLarge) ==>
              TotalSize(uploads) > MAX_TOTAL && forall j :: 0 <= j < |uploads| ==> Fine(uploads[j])
  {
    if |uploads| > MAX_FILES {
      return Some(TooMany);
    }
    var totalBytes := 0;
    for i := 0 to |uploads|
      invariant forall j :: 0 <= j < i ==> Fine(uploads[j])
      invariant totalBytes == Total(uploads[..i], Size)
    {
      refusal := Check(uploads[i], i);
      if refusal.Some? {
        return;
      }
      TotalStep(uploads, Size, i);
      totalBytes := totalBytes + Size(uploads[i]);
    }
    assert uploads[..|uploads|] == uploads;
    if totalBytes > MAX_TOTAL {
      return Some(TotalTooLarge);
    }
    refusal := None;
  }

  /** The total is the sum of the decoded sizes, file by file. */
  lemma TotalSpells(uploads: seq<Upload>, u: Upload)
    requires Decode(u.content).Some?
    ensures TotalSize([]) == 0 && TotalSize(uploads + [u]) == TotalSize(uploads) + |Decode(u.content).value|
  {
    assert (uploads + [u])[..|uploads|] == uploads;
  }

  function Zeros(n: nat): (r: seq<Byte>)
    ensures |r| == n
  {
    if n == 0 then [] else [0] + Zeros(n - 1)
  }

  function Sized(n: nat): Upload { Holding(Zeros(n)) }

  function Holding(bytes: seq<Byte>): Upload { Upload("f", "", Wrapped(bytes)) }

  lemma HoldingIs(bytes: seq<Byte>)
    ensures Decode(Holding(bytes).content) == Some(bytes)
  {
    DecodeWrapped(bytes);
  }

  lemma SizedIs(n: nat)
    ensures Decode(Sized(n).content).Some? && |Decode(Sized(n).content).value| == n && Sized(n).filename != ""
  {
    HoldingIs(Zeros(n));
  }

  /** The limits are ten megabytes for one file and fifteen for all, and both are reached. */
  lemma LimitsAreReached(a: nat, b: nat)
    ensures Acceptable([Sized(a), Sized(b)])
            <==> a <= 10 * 1024 * 1024 && b <= 10 * 1024 * 1024 && a + b <= 15 * 1024 * 1024
  {
    SizedIs(a);
    SizedIs(b);
    TotalSpells([], Sized(a));
    TotalSpells([Sized(a)], Sized(b));
    assert [] + [Sized(a)] == [Sized(a)] && [Sized(a)] + [Sized(b)] == [Sized(a), Sized(b)];
    var both := [Sized(a), Sized(b)];
    assert both[0] == Sized(a) && both[1] == Sized(b);
  }

  /** Any number of files up to ten is accepted, and no more. */
  lemma TenAreAccepted(n: nat)
    ensures Acceptable(seq(n, i => Sized(0))) <==> n <= 10
  {
    SizedIs(0);
    NothingWeighs(n);
  }

  lemma {:induction false} NothingWeighs(n: nat)
    ensures TotalSize(seq(n, i => Sized(0))) == 0
  {
    if n > 0 {
      NothingWeighs(n - 1);
      SizedIs(0);
      assert seq(n, i => Sized(0)) == seq(n - 1, i => Sized(0)) + [Sized(0)];
      TotalSpells(seq(n - 1, i => Sized(0)), Sized(0));
    }
  }

  function EncodedOne(u: Upload): nat { match Decode(u.content) case None => 0 case Some(bytes) => |Wrapped(bytes)| }

  function EncodedSize(uploads: seq<Upload>): nat { Total(uploads, EncodedOne) }

  lemma WireArithmetic(n: nat, l: nat, third: nat, lines: nat)
    requires third == (n + 2) / 3 && l == 4 * third && lines == (l + 75) / 76
    ensures 57 * (l + 2 * lines) <= 78 * n + 57 * 10
  {
  }

  lemma EncodedOneBound(u: Upload)
    ensures 57 * EncodedOne(u) <= 78 * Size(u) + 57 * 10
  {
    match Decode(u.content)
    case None =>
    case Some(bytes) =>
      WrappedLength(bytes);
      var n := |bytes|;
      var third := (n + 2) / 3;
      WireArithmetic(n, 4 * third, third, (4 * third + 75) / 76);
  }

  lemma {:induction false} TotalBound(uploads: seq<Upload>, encoded: Upload -> nat, size: Upload -> nat)
    requires forall u :: 57 * encoded(u) <= 78 * size(u) + 57 * 10
    ensures 57 * Total(uploads, encoded) <= 78 * Total(uploads, size) + 57 * 10 * |uploads|
  {
    if uploads != [] {
      TotalBound(uploads[..|uploads| - 1], encoded, size);
      assert 57 * encoded(uploads[|uploads| - 1]) <= 78 * size(uploads[|uploads| - 1]) + 57 * 10;
    }
  }

  /** Each file costs at most 78/57 of its size on the wire, plus ten characters. */
  lemma EncodedSizeBound(uploads: seq<Upload>)
    ensures 57 * EncodedSize(uploads) <= 78 * TotalSize(uploads) + 57 * 10 * |uploads|
  {
    forall u ensures 57 * EncodedOne(u) <= 78 * Size(u) + 57 * 10 { EncodedOneBound(u); }
    TotalBound(uploads, EncodedOne, Size);
  }

  lemma EnvelopeArithmetic(encoded: nat, total: nat, count: nat)
    requires 57 * encoded <= 78 * total + 570 * count && total <= 15_728_640 && count <= 10
    ensures encoded < 21_600_000
  {
  }

  /** The attachments of any accepted request stay below 21.6 million characters when wrapped. */
  lemma {:induction false} AcceptedFitsTheEnvelope(uploads: seq<Upload>)
    requires Acceptable(uploads)
    ensures EncodedSize(uploads) < 21_600_000 < 25 * 1024 * 1024
  {
    EncodedSizeBound(uploads);
    var encoded, total, count := EncodedSize(uploads), TotalSize(uploads), |uploads|;
    EnvelopeArithmetic(encoded, total, count);
  }

  /** The stored attachments that decode, in order. */
  function Decoded(stored: seq<Upload>): seq<Attachment> {
    if stored == [] then []
    else
      var init, last := Decoded(stored[..|stored| - 1]), stored[|stored| - 1];
      match Decode(last.content)
      case None => init
      case Some(bytes) => init + [Attachment(last.filename, last.contentType, bytes)]
  }

  predicate Decodes(u: Upload) { Decode(u.content).Some? }

  lemma DecodedStep(stored: seq<Upload>, i: nat)
    requires i < |stored|
    ensures Decoded(stored[..i + 1]) == match Decode(stored[i].content)
                                        case None => Decoded(stored[..i])
                                        case Some(bytes) =>
                                          Decoded(stored[..i]) + [Attachment(stored[i].filename, stored[i].contentType, bytes)]
  {
    assert stored[..i + 1][..i] == stored[..i];
  }

  /** The worker's loop over the stored attachments, which drops one that does not decode. */
  method DecodeStored(stored: seq<Upload>) returns (attachments: seq<Attachment>)
    ensures attachments == Decoded(stored)
    ensures |attachments| == |stored| <==> forall i :: 0 <= i < |stored| ==> Decodes(stored[i])
  {
    attachments := [];
    for i := 0 to |stored|
      invariant attachments == Decoded(stored[..i]) && |attachments| <= i
      invariant |attachments| == i <==> forall j :: 0 <= j < i ==> Decodes(stored[j])
    {
      DecodedStep(stored, i);
      var decoded := Decode(stored[i].content);
      if decoded.None? {
        continue;
      }
      attachments := attachments + [Attachment(stored[i].filename, stored[i].contentType, decoded.value)];
    }
    assert stored[..|stored|] == stored;
  }

  lemma {:induction false} DecodedConcat(a: seq<Upload>, b: seq<Upload>)
    ensures Decoded(a + b) == Decoded(a) + Decoded(b)
  {
    if b == [] {
      assert a + b == a;
    } else {
      var init, last := b[..|b| - 1], b[|b| - 1];
      assert (a + b)[..|a + b| - 1] == a + init && (a + b)[|a + b| - 1] == last;
      DecodedConcat(a, init);
    }
  }

  /** Each stored attachment yields its own bytes under its own name and type, or nothing if it does not decode. */
  lemma DecodedSpells(a: seq<Upload>, u: Upload, b: seq<Upload>)
    ensures Decoded(a + [u] + b)
         == Decoded(a) + (if Decode(u.content).None? then []
                          else [Attachment(u.filename, u.contentType, Decode(u.content).value)]) + Decoded(b)
  {
    DecodedConcat(a + [u], b);
    DecodedConcat(a, [u]);
    assert [u][..0] == [] && Decoded([]) == [];
  }

  /** Nothing is skipped after acceptance: the i-th attachment holds the bytes of the caller's i-th upload. */
  lemma {:induction false} DecodedFaithful(uploads: seq<Upload>, i: nat)
    requires (forall j :: 0 <= j < |uploads| ==> Decodes(uploads[j])) && i < |uploads|
    ensures |Decoded(uploads)| == |uploads|
    ensures Decodes(uploads[i])
    ensures Decoded(uploads)[i] == Attachment(uploads[i].filename, uploads[i].contentType, Decode(uploads[i].content).value)
  {
    var init := uploads[..|uploads| - 1];
    if i < |init| {
      DecodedFaithful(init, i);
    } else if init != [] {
      DecodedFaithful(init, 0);
    }
  }

  // From the row to the wire

  function Text(bytes: seq<Byte>): string { seq(|bytes|, i requires 0 <= i < |bytes| => bytes[i] as char) }

  /** A body the worker takes for a complete message: relay input, or HTML that happens to look like it. */
  predicate LooksRaw(html: seq<Byte>) {
    var s := Text(html);
    "From:" <= s || "DKIM-" <= s || "Received:" <= s || "MIME-Version:" <= s
  }

  function Outgoing(env: Env, from: string, fromName: string, to: string, subject: string,
                    html: seq<Byte>, text: seq<Byte>, extra: seq<(string, string)>, stored: seq<Upload>): string {
    if LooksRaw(html) then Text(html)
    else Unlines(MessageLines(env, from, fromName, to, subject, html, text, extra, Decoded(stored)))
  }

  /**
    Attachment fidelity end to end: for an accepted request a reader of what goes out recovers the
    text, the HTML and, as its i-th file, the encoded name and the bytes of the caller's i-th
    attachment, exactly when the message is Readable; unless the body is taken for a raw message,
    which goes out as it is, whatever was attached.
    */
  lemma {:induction false} AttachmentFidelity(env: Env, from: string, fromName: string, to: string, subject: string,
                           html: seq<Byte>, text: seq<Byte>, extra: seq<(string, string)>, uploads: seq<Upload>)
    requires Sound(env) && Acceptable(uploads)
    ensures var files, wire := FilesOf(env, Decoded(uploads)), Outgoing(env, from, fromName, to, subject, html, text, extra, uploads);
            && |files| == |uploads|
            && (forall i :: 0 <= i < |uploads| ==>
                  files[i] == File(env.qencode(uploads[i].filename), Decode(uploads[i].content).value))
            && if LooksRaw(html) then wire == Text(html)
               else Read(wire) == Some(Mail(if text == [] && html != [] then env.plain(html) else text,
                                       if html != [] then Some(html) else None, files))
                    && NoCopies(env, Decoded(uploads))
                    <==> Readable(env, html, text, extra, Decoded(uploads))
  {
    var files := Decoded(uploads);
    if uploads != [] { DecodedFaithful(uploads, 0); }
    forall i | 0 <= i < |uploads|
      ensures Decode(uploads[i].content).Some?
      ensures files[i] == Attachment(uploads[i].filename, uploads[i].contentType, Decode(uploads[i].content).value)
    {
      DecodedFaithful(uploads, i);
    }
    ParsingUndoesBuilding(env, from, fromName, to, subject, html, text, extra, files);
  }

  lemma BuiltOpensWithFrom(env: Env, from: string, fromName: string, to: string, subject: string,
                           html: seq<Byte>, text: seq<Byte>, extra: seq<(string, string)>, files: seq<Attachment>)
    ensures "From:" <= Unlines(MessageLines(env, from, fromName, to, subject, html, text, extra, files))
  {
    var lines := MessageLines(env, from, fromName, to, subject, html, text, extra, files);
    var address, name := Strip(from), Strip(fromName);
    assert lines[0] == "From: " + (if name != "" then env.qencode(name) + " <" + address + ">" else address);
    assert Unlines(lines) == lines[0] + CRLF + Unlines(lines[1..]);
  }

  /**
    What the relay stored goes out as it came exactly if it begins with one of the four prefixes.
    Any other message, one that begins with its date say, is wrapped as the HTML of a new one.
    */
  lemma RelayedVerbatim(env: Env, from: string, fromName: string, to: string, subject: string,
                        html: seq<Byte>, text: seq<Byte>, extra: seq<(string, string)>, stored: seq<Upload>)
    ensures Outgoing(env, from, fromName, to, subject, html, text, extra, stored) == Text(html)
            <==> exists p :: p in ["From:", "DKIM-", "Received:", "MIME-Version:"] && p <= Text(html)
  {
    BuiltOpensWithFrom(env, from, fromName, to, subject, html, text, extra, Decoded(stored));
    RawIs(html);
  }

  lemma RawIs(html: seq<Byte>)
    ensures LooksRaw(html) <==> exists p :: p in ["From:", "DKIM-", "Received:", "MIME-Version:"] && p <= Text(html)
  {
    var prefixes := ["From:", "DKIM-", "Received:", "MIME-Version:"];
    assert prefixes[0] in prefixes && prefixes[1] in prefixes && prefixes[2] in prefixes && prefixes[3] in prefixes;
  }

  lemma FilesLengthen(env: Env, html: seq<Byte>, text: seq<Byte>, files: seq<Attachment>)
    requires files != []
    ensures |Unlines(TailLines(env, html, text, files))| > |Unlines(TailLines(env, html, text, []))|
  {
    var mixed := MakeBoundary(env.mixed);
    var opening, body := [MultipartLine("mixed", mixed), "", "--" + mixed], TailLines(env, html, text, []);
    UnlinesConcat(opening, body);
    UnlinesConcat(opening + body, FilesLines(env, mixed, files));
    assert |Unlines(opening)| > 0;
  }

  /** Attachments make no difference to what goes out, exactly if the body is taken for a raw message. */
  lemma {:induction false} RawDropsAttachments(env: Env, from: string, fromName: string, to: string, subject: string,
                            html: seq<Byte>, text: seq<Byte>, extra: seq<(string, string)>)
    ensures (forall a, b :: Outgoing(env, from, fromName, to, subject, html, text, extra, a)
                            == Outgoing(env, from, fromName, to, subject, html, text, extra, b))
            <==> LooksRaw(html)
  {
    if !LooksRaw(html) {
      var head := HeadLines(env, from, fromName, to, subject, extra);
      var upload := Upload("f", "t", "");
      var files := Decoded([upload]);
      OneDecodes(upload);
      FilesLengthen(env, html, text, files);
      UnlinesConcat(head, TailLines(env, html, text, []));
      UnlinesConcat(head, TailLines(env, html, text, files));
      assert Decoded([]) == [];
      assert Outgoing(env, from, fromName, to, subject, html, text, extra, [])
          != Outgoing(env, from, fromName, to, subject, html, text, extra, [upload]);
    }
  }

  lemma OneDecodes(u: Upload)
    requires u.content == ""
    ensures Decoded([u]) != []
  {
    assert [u][..0] == [] && Unbroken("") == "" && DecodeClean("") == Some([]);
  }
}
