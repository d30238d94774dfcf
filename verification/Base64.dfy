/**
  Base64 of section 4 of RFC 4648, as the Go standard encoding reads and writes it: the decoder
  skips CR and LF anywhere, and does not insist on zero padding bits.
  */
module Base64 {
  import opened Wrappers

  type Byte = x: int | 0 <= x < 256
  type Sextet = x: int | 0 <= x < 64

  const CRLF: string := "\r\n"

  function Letter(i: Sextet): char {
    if i < 26 then (65 + i) as char
    else if i < 52 then (71 + i) as char
    else if i < 62 then (i - 4) as char
    else if i == 62 then '+'
    else '/'
  }

  function Value(c: char): Option<Sextet> {
    if 'A' <= c <= 'Z' then Some(c as int - 65)
    else if 'a' <= c <= 'z' then Some(c as int - 71)
    else if '0' <= c <= '9' then Some(c as int + 4)
    else if c == '+' then Some(62)
    else if c == '/' then Some(63)
    else None
  }

  predicate Alphabet(c: char) { Value(c).Some? || c == '=' }

  lemma LetterValue(i: Sextet)
    ensures Value(Letter(i)) == Some(i) && Alphabet(Letter(i)) && Letter(i) != '='
  {
  }

  /** The alphabet of section 4 of RFC 4648, in its order. */
  lemma Standard(i: Sextet)
    ensures i < 26 ==> Letter(i) == ('A' as int + i) as char
    ensures 26 <= i < 52 ==> Letter(i) == ('a' as int + (i - 26)) as char
    ensures 52 <= i < 62 ==> Letter(i) == ('0' as int + (i - 52)) as char
    ensures Letter(62) == '+' && Letter(63) == '/'
  {
  }

  function One(a: Byte): string { [Letter(a / 4), Letter(a % 4 * 16), '=', '='] }

  function Two(a: Byte, b: Byte): string { [Letter(a / 4), Letter(a % 4 * 16 + b / 16), Letter(b % 16 * 4), '='] }

  function Three(a: Byte, b: Byte, c: Byte): string {
    [Letter(a / 4), Letter(a % 4 * 16 + b / 16), Letter(b % 16 * 4 + c / 64), Letter(c % 64)]
  }

  function Encode(s: seq<Byte>): string {
    if s == [] then ""
    else if |s| == 1 then One(s[0])
    else if |s| == 2 then Two(s[0], s[1])
    else Three(s[0], s[1], s[2]) + Encode(s[3..])
  }

  /** Test vectors of section 10 of RFC 4648. */
  lemma Vectors()
    ensures Encode([102]) == "Zg==" && Encode([102, 111]) == "Zm8=" && Encode([102, 111, 111]) == "Zm9v"
    ensures Encode([102, 111, 111, 98]) == "Zm9vYg=="
  {
    assert [102, 111, 111][3..] == [] && [102, 111, 111, 98][3..] == [98];
  }

  function Triple(a: Sextet, b: Sextet, c: Sextet, d: Sextet): seq<Byte> {
    [a * 4 + b / 16, b % 16 * 16 + c / 4, c % 4 * 64 + d]
  }

  /** One group of four; only the last group of the text may be padded. */
  function Quantum(t: string, last: bool): Option<seq<Byte>>
    requires |t| == 4
  {
    var a, b, c, d := Value(t[0]), Value(t[1]), Value(t[2]), Value(t[3]);
    if a.Some? && b.Some? && c.Some? && d.Some? then Some(Triple(a.value, b.value, c.value, d.value))
    else if last && a.Some? && b.Some? && c.Some? && t[3] == '=' then Some(Triple(a.value, b.value, c.value, 0)[..2])
    else if last && a.Some? && b.Some? && t[2] == '=' && t[3] == '=' then Some(Triple(a.value, b.value, 0, 0)[..1])
    else None
  }

  function DecodeClean(t: string): Option<seq<Byte>>
    decreases |t|
  {
    if t == "" then Some([])
    else if |t| < 4 then None
    else
      var head, rest := Quantum(t[..4], |t| == 4), DecodeClean(t[4..]);
      if head.None? || rest.None? then None else Some(head.value + rest.value)
  }

  function Unbroken(t: string): string {
    if t == "" then "" else if t[0] == '\r' || t[0] == '\n' then Unbroken(t[1..]) else [t[0]] + Unbroken(t[1..])
  }

  function Decode(t: string): Option<seq<Byte>> { DecodeClean(Unbroken(t)) }

  lemma Parts(a: Byte)
    ensures a / 4 * 4 + a % 4 == a && a / 16 * 16 + a % 16 == a && a / 64 * 64 + a % 64 == a
  {
  }

  lemma Straddle16(high: int, low: int)
    requires 0 <= low < 16
    ensures (high * 16 + low) / 16 == high && (high * 16 + low) % 16 == low
  {
  }

  lemma Straddle4(high: int, low: int)
    requires 0 <= low < 4
    ensures (high * 4 + low) / 4 == high && (high * 4 + low) % 4 == low
  {
  }

  /** Joining the four sextets gives the three bytes back. */
  lemma Joined(x: Sextet, y: Sextet, z: Sextet, w: Sextet, a: Byte, b: Byte, c: Byte)
    requires x * 4 + y / 16 == a && y % 16 * 16 + z / 4 == b && z % 4 * 64 + w == c
    ensures Triple(x, y, z, w) == [a, b, c]
  {
  }

  lemma TripleBytes(a: Byte, b: Byte, c: Byte)
    ensures Triple(a / 4, a % 4 * 16 + b / 16, b % 16 * 4 + c / 64, c % 64) == [a, b, c]
  {
    Straddle16(a % 4, b / 16);
    Straddle4(b % 16, c / 64);
    Parts(a);
    Parts(b);
    Parts(c);
    Joined(a / 4, a % 4 * 16 + b / 16, b % 16 * 4 + c / 64, c % 64, a, b, c);
  }

  lemma FullQuantum(a: Byte, b: Byte, c: Byte, last: bool)
    ensures |Three(a, b, c)| == 4 && Quantum(Three(a, b, c), last) == Some([a, b, c])
  {
    LetterValue(a / 4);
    LetterValue(a % 4 * 16 + b / 16);
    LetterValue(b % 16 * 4 + c / 64);
    LetterValue(c % 64);
    TripleBytes(a, b, c);
  }

  lemma TwoQuantum(a: Byte, b: Byte)
    ensures |Two(a, b)| == 4 && Quantum(Two(a, b), true) == Some([a, b])
  {
    LetterValue(a / 4);
    LetterValue(a % 4 * 16 + b / 16);
    LetterValue(b % 16 * 4);
    TripleBytes(a, b, 0);
    assert Triple(a / 4, a % 4 * 16 + b / 16, b % 16 * 4, 0)[..2] == [a, b];
  }

  lemma OnlyQuantum(a: Byte)
    ensures |One(a)| == 4 && Quantum(One(a), true) == Some([a])
  {
    LetterValue(a / 4);
    LetterValue(a % 4 * 16);
    TripleBytes(a, 0, 0);
    assert Triple(a / 4, a % 4 * 16, 0, 0)[..1] == [a];
  }

  lemma DecodeJoin(head: string, rest: string, bytes: seq<Byte>, more: seq<Byte>)
    requires |head| == 4 && Quantum(head, rest == "") == Some(bytes) && DecodeClean(rest) == Some(more)
    ensures DecodeClean(head + rest) == Some(bytes + more)
  {
    assert (head + rest)[..4] == head && (head + rest)[4..] == rest;
  }

  // Encoding seen group by group, so that decoding is argued without looking into a group

  function Groups(s: seq<Byte>): seq<seq<Byte>> {
    if s == [] then [] else if |s| <= 3 then [s] else [s[..3]] + Groups(s[3..])
  }

  function EncodeGroup(g: seq<Byte>): string {
    if |g| == 1 then One(g[0]) else if |g| == 2 then Two(g[0], g[1]) else if |g| == 3 then Three(g[0], g[1], g[2]) else ""
  }

  function Concat(gs: seq<seq<Byte>>, f: seq<Byte> -> string): string {
    if gs == [] then "" else f(gs[0]) + Concat(gs[1..], f)
  }

  function Flatten(gs: seq<seq<Byte>>): seq<Byte> { if gs == [] then [] else gs[0] + Flatten(gs[1..]) }

  predicate Small(g: seq<Byte>, last: bool) { 1 <= |g| <= 3 && (|g| == 3 || last) }

  lemma {:induction false} EncodeByGroups(s: seq<Byte>)
    ensures Encode(s) == Concat(Groups(s), EncodeGroup)
    decreases |s|
  {
    if |s| > 3 {
      EncodeByGroups(s[3..]);
      assert s[..3] == [s[0], s[1], s[2]];
    } else if |s| == 3 {
      assert s[3..] == [];
    }
  }

  lemma {:induction false} GroupsCover(s: seq<Byte>)
    ensures Flatten(Groups(s)) == s
    ensures forall i :: 0 <= i < |Groups(s)| ==> Small(Groups(s)[i], i == |Groups(s)| - 1)
    decreases |s|
  {
    if |s| > 3 {
      GroupsCover(s[3..]);
      assert s == s[..3] + s[3..];
    }
  }

  lemma GroupDecodes(g: seq<Byte>, last: bool)
    requires Small(g, last)
    ensures |EncodeGroup(g)| == 4 && Quantum(EncodeGroup(g), last) == Some(g)
  {
    if |g| == 1 {
      OnlyQuantum(g[0]);
      assert g == [g[0]];
    } else if |g| == 2 {
      TwoQuantum(g[0], g[1]);
      assert g == [g[0], g[1]];
    } else {
      FullQuantum(g[0], g[1], g[2], last);
      assert g == [g[0], g[1], g[2]];
    }
  }

  /** If f turns each group into a quantum that decodes to it, decoding the whole gives the groups back. */
  lemma {:induction false} DecodeConcat(gs: seq<seq<Byte>>, f: seq<Byte> -> string)
    requires forall i :: 0 <= i < |gs| ==> |f(gs[i])| == 4 && Quantum(f(gs[i]), i == |gs| - 1) == Some(gs[i])
    ensures DecodeClean(Concat(gs, f)) == Some(Flatten(gs))
    ensures Concat(gs, f) == "" <==> gs == []
  {
    if gs != [] {
      var rest := gs[1..];
      assert forall i :: 0 <= i < |rest| ==> rest[i] == gs[i + 1];
      DecodeConcat(rest, f);
      DecodeJoin(f(gs[0]), Concat(rest, f), gs[0], Flatten(rest));
    }
  }

  /** Decoding undoes encoding. */
  lemma {:induction false} DecodeEncode(s: seq<Byte>)
    ensures DecodeClean(Encode(s)) == Some(s)
  {
    var gs := Groups(s);
    EncodeByGroups(s);
    GroupsCover(s);
    forall i | 0 <= i < |gs|
      ensures |EncodeGroup(gs[i])| == 4 && Quantum(EncodeGroup(gs[i]), i == |gs| - 1) == Some(gs[i])
    {
      GroupDecodes(gs[i], i == |gs| - 1);
    }
    DecodeConcat(gs, EncodeGroup);
  }

  predicate InAlphabet(t: string) { forall c :: c in t ==> Alphabet(c) }

  lemma GroupsInAlphabet(a: Byte, b: Byte, c: Byte)
    ensures InAlphabet(Three(a, b, c)) && InAlphabet(Two(a, b)) && InAlphabet(One(a))
  {
    LetterValue(a / 4);
    LetterValue(a % 4 * 16);
    LetterValue(a % 4 * 16 + b / 16);
    LetterValue(b % 16 * 4);
    LetterValue(b % 16 * 4 + c / 64);
    LetterValue(c % 64);
  }

  lemma AlphabetConcat(t: string, u: string)
    requires InAlphabet(t) && InAlphabet(u)
    ensures InAlphabet(t + u)
  {
  }

  lemma {:induction false} EncodeInAlphabet(s: seq<Byte>)
    ensures InAlphabet(Encode(s))
    decreases |s|
  {
    if s != [] {
      GroupsInAlphabet(s[0], if |s| > 1 then s[1] else 0, if |s| > 2 then s[2] else 0);
      if |s| >= 3 {
        EncodeInAlphabet(s[3..]);
        AlphabetConcat(Three(s[0], s[1], s[2]), Encode(s[3..]));
      }
    }
  }

  lemma EncodeGrows(s: seq<Byte>)
    ensures |s| >= 3 ==> |Encode(s)| == 4 + |Encode(s[3..])|
    ensures 0 < |s| < 3 ==> |Encode(s)| == 4
  {
  }

  lemma Thirds(n: nat, l: nat, rest: nat)
    requires n >= 3 && rest == 4 * ((n - 3 + 2) / 3) && l == 4 + rest
    ensures l == 4 * ((n + 2) / 3)
  {
  }

  lemma {:induction false} EncodeLength(s: seq<Byte>)
    ensures |Encode(s)| == 4 * ((|s| + 2) / 3)
    decreases |s|
  {
    EncodeGrows(s);
    if |s| >= 3 {
      EncodeLength(s[3..]);
      Thirds(|s|, |Encode(s)|, |Encode(s[3..])|);
    }
  }

  lemma EncodeShape(s: seq<Byte>)
    ensures |Encode(s)| == 4 * ((|s| + 2) / 3)
    ensures forall c :: c in Encode(s) ==> Alphabet(c)
  {
    EncodeLength(s);
    EncodeInAlphabet(s);
  }

  // Wrapping at 76 columns

  const WIDTH: nat := 76

  function Chunks(t: string): seq<string> {
    if |t| <= WIDTH then (if t == "" then [] else [t]) else [t[..WIDTH]] + Chunks(t[WIDTH..])
  }

  /** Lines as they are written: each followed by CRLF. */
  function Unlines(lines: seq<string>): string {
    if lines == [] then "" else lines[0] + CRLF + Unlines(lines[1..])
  }

  lemma {:induction false} UnlinesConcat(a: seq<string>, b: seq<string>)
    ensures Unlines(a + b) == Unlines(a) + Unlines(b)
  {
    if a == [] {
      assert a + b == b;
    } else {
      assert (a + b)[1..] == a[1..] + b;
      UnlinesConcat(a[1..], b);
    }
  }

  function Wrapped(s: seq<Byte>): string { Unlines(Chunks(Encode(s))) }

  lemma WrapStep(t: string, i: nat, end: nat, before: string)
    requires i < |t| && end == if i + WIDTH > |t| then |t| else i + WIDTH
    ensures before + t[i..end] + CRLF + Unlines(Chunks(t[end..])) == before + Unlines(Chunks(t[i..]))
  {
    var rest := t[i..];
    assert rest[..end - i] == t[i..end] && rest[end - i..] == t[end..];
    assert Unlines(Chunks(rest)) == t[i..end] + CRLF + Unlines(Chunks(t[end..]));
  }

  method Base64Wrap(s: seq<Byte>) returns (wrapped: string)
    ensures wrapped == Wrapped(s)
  {
    var encoded := Encode(s);
    wrapped := "";
    var i := 0;
    while i < |encoded|
      invariant i <= |encoded| + WIDTH
      invariant wrapped + Unlines(Chunks(encoded[if i < |encoded| then i else |encoded|..])) == Wrapped(s)
    {
      var end := i + WIDTH;
      if end > |encoded| {
        end := |encoded|;
      }
      WrapStep(encoded, i, end, wrapped);
      wrapped := wrapped + encoded[i..end];
      wrapped := wrapped + CRLF;
      i := i + WIDTH;
    }
  }

  /** A line of base64 text: non-empty, at most 76 characters, and all of the alphabet. */
  predicate Base64Line(line: string) {
    0 < |line| <= WIDTH && forall c :: c in line ==> Alphabet(c)
  }

  /** Every line of the wrapping is within the limit of section 6.8 of RFC 2045. */
  lemma {:induction false} ChunkLines(t: string, i: nat)
    requires (forall c :: c in t ==> Alphabet(c)) && i < |Chunks(t)|
    ensures Base64Line(Chunks(t)[i])
    decreases |t|
  {
    if |t| > WIDTH && i > 0 {
      assert forall c :: c in t[WIDTH..] ==> c in t;
      ChunkLines(t[WIDTH..], i - 1);
    }
  }

  lemma {:induction false} UnbrokenConcat(a: string, b: string)
    ensures Unbroken(a + b) == Unbroken(a) + Unbroken(b)
  {
    if a == "" {
      assert a + b == b;
    } else {
      assert (a + b)[1..] == a[1..] + b;
      UnbrokenConcat(a[1..], b);
    }
  }

  lemma {:induction false} UnbrokenPlain(t: string)
    requires '\r' !in t && '\n' !in t
    ensures Unbroken(t) == t
  {
    if t != "" { UnbrokenPlain(t[1..]); }
  }

  lemma {:induction false} UnbrokenChunks(t: string)
    requires '\r' !in t && '\n' !in t
    ensures Unbroken(Unlines(Chunks(t))) == t
    decreases |t|
  {
    if t != "" {
      var n := if |t| <= WIDTH then |t| else WIDTH;
      assert t[..n] + t[n..] == t;
      UnbrokenPlain(t[..n]);
      UnbrokenConcat(t[..n], CRLF);
      assert Unbroken(CRLF) == "";
      UnbrokenConcat(t[..n] + CRLF, Unlines(Chunks(t[n..])));
      UnbrokenChunks(t[n..]);
      assert n == |t| ==> t[..n] == t && t[n..] == "" && Chunks(t[n..]) == [];
      assert Chunks(t) == [t[..n]] + Chunks(t[n..]);
      assert Unlines(Chunks(t)) == t[..n] + CRLF + Unlines(Chunks(t[n..]));
    }
  }

  /** Wrapping is invertible: decoding the wrapped text gives the bytes back. */
  lemma DecodeWrapped(s: seq<Byte>)
    ensures Decode(Wrapped(s)) == Some(s)
  {
    EncodeShape(s);
    assert !Alphabet('\r') && !Alphabet('\n');
    UnbrokenChunks(Encode(s));
    DecodeEncode(s);
  }

  lemma {:induction false} ChunksLength(t: string)
    ensures |Unlines(Chunks(t))| == |t| + 2 * ((|t| + 75) / 76)
    decreases |t|
  {
    if |t| > WIDTH {
      ChunksLength(t[WIDTH..]);
      assert (|t| + 75) / 76 == (|t[WIDTH..]| + 75) / 76 + 1;
    } else if t != "" {
      assert Unlines([t]) == t + CRLF + Unlines([]);
    }
  }

  /** The exact size of a wrapped body: four characters per three bytes, and two per line. */
  lemma WrappedLength(s: seq<Byte>)
    ensures var l := 4 * ((|s| + 2) / 3); |Wrapped(s)| == l + 2 * ((l + 75) / 76)
  {
    EncodeShape(s);
    ChunksLength(Encode(s));
  }
}
