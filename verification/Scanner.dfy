/** The relay's header scanner, and its agreement with the message builder. */
module Scanner {
  import opened Wrappers
  import opened Base64
  import opened Mime
  import opened Message
  import opened HeaderBlock

  /** ASCII white space: the blank and the five controls from TAB to CR. */
  predicate IsSpace(c: char) { c == ' ' || '\t' <= c <= '\r' }

  /** Six characters count: blank, tab, line feed, vertical tab, form feed and carriage return. */
  lemma SixSpaces(c: char)
    ensures IsSpace(c) <==> c == ' ' || c == '\t' || c == '\n' || c == 11 as char || c == 12 as char || c == '\r'
  {
  }

  function TrimSpace(s: string): string {
    if s == "" then ""
    else if IsSpace(s[0]) then TrimSpace(s[1..])
    else if IsSpace(s[|s| - 1]) then TrimSpace(s[..|s| - 1])
    else s
  }

  /** Trimming cuts all the space at both ends and nothing else. */
  lemma {:induction false} TrimCuts(s: string) returns (i: nat, j: nat)
    ensures i <= j <= |s| && TrimSpace(s) == s[i..j]
    ensures (forall k :: 0 <= k < i ==> IsSpace(s[k])) && (forall k :: j <= k < |s| ==> IsSpace(s[k]))
    ensures TrimSpace(s) != "" ==> !IsSpace(s[i]) && !IsSpace(s[j - 1])
    decreases |s|
  {
    if s == "" {
      i, j := 0, 0;
    } else if IsSpace(s[0]) {
      i, j := TrimCuts(s[1..]);
      assert s[1..][i..j] == s[i + 1..j + 1];
      i, j := i + 1, j + 1;
    } else if IsSpace(s[|s| - 1]) {
      i, j := TrimCuts(s[..|s| - 1]);
      assert s[..|s| - 1][i..j] == s[i..j];
    } else {
      i, j := 0, |s|;
    }
  }

  lemma {:induction false} TrimLast(s: string, c: char)
    requires IsSpace(c)
    ensures TrimSpace(s + [c]) == TrimSpace(s)
  {
    if s == "" {
      assert [c][1..] == "";
    } else if IsSpace(s[0]) {
      assert (s + [c])[1..] == s[1..] + [c];
      TrimLast(s[1..], c);
    } else {
      assert (s + [c])[..|s|] == s;
    }
  }

  /** The text split at each LF. */
  function SplitLF(text: string): (lines: seq<string>)
    ensures lines != []
  {
    if text == "" then [""]
    else if text[0] == '\n' then [""] + SplitLF(text[1..])
    else
      var rest := SplitLF(text[1..]);
      [[text[0]] + rest[0]] + rest[1..]
  }

  predicate Matches(line: string, name: string) { Lower(name + ":") <= Lower(line) }

  predicate Blank(line: string) { line == "" || line == "\r" }

  /** The number of lines before the first blank one. */
  function HeaderEnd(lines: seq<string>): (n: nat)
    ensures n <= |lines| && (forall i :: 0 <= i < n ==> !Blank(lines[i])) && (n < |lines| ==> Blank(lines[n]))
  {
    if lines == [] || Blank(lines[0]) then 0 else 1 + HeaderEnd(lines[1..])
  }

  /** The first of the lines that carries the field. */
  function FirstMatch(lines: seq<string>, name: string): (k: Option<nat>)
    ensures k.None? ==> forall i :: 0 <= i < |lines| ==> !Matches(lines[i], name)
    ensures k.Some? ==> k.value < |lines| && Matches(lines[k.value], name)
                        && forall i :: 0 <= i < k.value ==> !Matches(lines[i], name)
  {
    if lines == [] then None
    else if Matches(lines[0], name) then Some(0)
    else match FirstMatch(lines[1..], name) case None => None case Some(k) => Some(k + 1)
  }

  function ValueIn(line: string, name: string): string
    requires Matches(line, name)
  {
    assert |Lower(name + ":")| <= |Lower(line)|;
    TrimSpace(line[|name| + 1..])
  }

  /** The value of the first field of that name in the header section, trimmed; empty if there is none. */
  function FieldValue(lines: seq<string>, name: string): string {
    match FirstMatch(lines[..HeaderEnd(lines)], name)
    case None => ""
    case Some(k) => ValueIn(lines[k], name)
  }

  /** A line carries a field if it starts with the name, in any case, and a colon. */
  predicate Carries(line: string, name: string) {
    |line| > |name| && line[|name|] == ':' && Lower(line[..|name|]) == Lower(name)
  }

  lemma CarriesIffMatches(line: string, name: string)
    ensures Matches(line, name) <==> Carries(line, name)
  {
    var wanted, lower := Lower(name + ":"), Lower(line);
    assert forall i :: 0 <= i < |name| ==> wanted[i] == LowerChar(name[i]) == Lower(name)[i];
    if Carries(line, name) {
      assert forall i :: 0 <= i < |name| ==> lower[i] == Lower(line[..|name|])[i];
      assert lower[..|wanted|] == wanted;
    }
    if Matches(line, name) {
      assert forall i :: 0 <= i < |wanted| ==> lower[i] == wanted[i];
      assert forall i :: 0 <= i < |name| ==> Lower(line[..|name|])[i] == lower[i];
    }
  }

  lemma MatchIsNotBlank(line: string, name: string)
    requires Matches(line, name)
    ensures !Blank(line)
  {
    var wanted, lower := Lower(name + ":"), Lower(line);
    assert wanted[|name|] == ':' && lower[|name|] == wanted[|name|];
    assert LowerChar(line[|name|]) == ':' && LowerChar('\r') == '\r';
  }

  lemma FoundAt(lines: seq<string>, k: nat, name: string)
    requires k < |lines| && Matches(lines[k], name)
    requires forall i :: 0 <= i < k ==> !Matches(lines[i], name) && !Blank(lines[i])
    ensures FieldValue(lines, name) == ValueIn(lines[k], name)
  {
    MatchIsNotBlank(lines[k], name);
    var header := lines[..HeaderEnd(lines)];
    assert k < |header| && header[k] == lines[k];
    assert forall i :: 0 <= i < k ==> header[i] == lines[i];
  }

  lemma NotFound(lines: seq<string>, n: nat, name: string)
    requires n <= |lines| && (n < |lines| ==> Blank(lines[n]))
    requires forall i :: 0 <= i < n ==> !Matches(lines[i], name) && !Blank(lines[i])
    ensures FieldValue(lines, name) == ""
  {
    assert HeaderEnd(lines) == n;
    assert forall i :: 0 <= i < n ==> lines[..n][i] == lines[i];
  }

  method ExtractHeader(data: string, name: string) returns (value: string)
    ensures value == FieldValue(SplitLF(data), name)
  {
    var lines := SplitLF(data);
    value := "";
    for i := 0 to |lines|
      invariant forall j :: 0 <= j < i ==> !Matches(lines[j], name) && !Blank(lines[j])
    {
      if Matches(lines[i], name) {
        FoundAt(lines, i, name);
        return ValueIn(lines[i], name);
      }
      if Blank(lines[i]) {
        NotFound(lines, i, name);
        return;
      }
    }
    NotFound(lines, |lines|, name);
  }

  lemma {:induction false} SplitLine(line: string, rest: string)
    requires '\n' !in line
    ensures SplitLF(line + "\n" + rest) == [line] + SplitLF(rest)
  {
    if line == "" {
      assert (line + "\n" + rest)[1..] == rest;
    } else {
      var text := line + "\n" + rest;
      assert text[0] == line[0] && text[1..] == line[1..] + "\n" + rest;
      SplitLine(line[1..], rest);
      assert [line[0]] + line[1..] == line;
    }
  }

  /** Lines as they stand in the data: each followed by LF. */
  function JoinLF(lines: seq<string>): string {
    if lines == [] then "" else lines[0] + "\n" + JoinLF(lines[1..])
  }

  lemma {:induction false} SplitJoin(lines: seq<string>, rest: string)
    requires forall i :: 0 <= i < |lines| ==> '\n' !in lines[i]
    ensures SplitLF(JoinLF(lines) + rest) == lines + SplitLF(rest)
  {
    if lines == [] {
      assert JoinLF(lines) + rest == rest;
    } else {
      Regroup(lines[0] + "\n", JoinLF(lines[1..]), rest);
      SplitLine(lines[0], JoinLF(lines[1..]) + rest);
      assert forall i :: 0 <= i < |lines[1..]| ==> lines[1..][i] == lines[i + 1];
      SplitJoin(lines[1..], rest);
      Regroup([lines[0]], lines[1..], SplitLF(rest));
      FirstLine(lines);
    }
  }

  lemma {:induction false} EndsAt(header: seq<string>, blank: string, rest: seq<string>)
    requires (forall i :: 0 <= i < |header| ==> !Blank(header[i])) && Blank(blank)
    ensures HeaderEnd(header + [blank] + rest) == |header|
  {
    if header != [] {
      assert (header + [blank] + rest)[1..] == header[1..] + [blank] + rest;
      EndsAt(header[1..], blank, rest);
    }
  }

  /** The scanner reads the header section only: whatever follows the first blank line is ignored. */
  lemma StopsAtBlank(header: seq<string>, blank: string, body: string, name: string)
    requires (blank == "" || blank == "\r")
    requires forall i :: 0 <= i < |header| ==> header[i] != "" && header[i] != "\r" && '\n' !in header[i]
    ensures FieldValue(SplitLF(JoinLF(header + [blank]) + body), name)
         == match FirstMatch(header, name) case None => "" case Some(k) => ValueIn(header[k], name)
  {
    SplitJoin(header + [blank], body);
    EndsAt(header, blank, SplitLF(body));
    assert (header + [blank] + SplitLF(body))[..|header|] == header;
  }

  /** A field is found whatever the case of its name, if no line above it is blank or carries the name. */
  lemma FoundInAnyCase(lines: seq<string>, k: nat, key: string, value: string, name: string)
    requires k < |lines| && lines[k] == key + ":" + value && Lower(key) == Lower(name)
    requires forall i :: 0 <= i < k ==> lines[i] != "" && lines[i] != "\r" && !Carries(lines[i], name)
    ensures FieldValue(lines, name) == TrimSpace(value)
  {
    assert lines[k][..|name|] == key && lines[k][|name| + 1..] == value;
    CarriesIffMatches(lines[k], name);
    forall i | 0 <= i < k ensures !Matches(lines[i], name) { CarriesIffMatches(lines[i], name); }
    FoundAt(lines, k, name);
  }

  /** And nothing is found if no line of the header section carries the name. */
  lemma NothingCarried(header: seq<string>, rest: seq<string>, name: string)
    requires rest != [] ==> rest[0] == "" || rest[0] == "\r"
    requires forall i :: 0 <= i < |header| ==> header[i] != "" && header[i] != "\r" && !Carries(header[i], name)
    ensures FieldValue(header + rest, name) == ""
  {
    forall i | 0 <= i < |header| ensures !Matches((header + rest)[i], name) && !Blank((header + rest)[i]) {
      CarriesIffMatches(header[i], name);
    }
    NotFound(header + rest, |header|, name);
  }

  // Agreement with the builder

  /** Written lines, split at LF, show each line with the CR still on it. */
  lemma {:induction false} SplitUnlines(lines: seq<string>, rest: string)
    requires AllOneLine(lines)
    ensures var split := SplitLF(Unlines(lines) + rest);
            && |split| > |lines|
            && forall i :: 0 <= i < |lines| ==> split[i] == lines[i] + "\r"
  {
    if lines != [] {
      var after := Unlines(lines[1..]) + rest;
      assert Unlines(lines) + rest == (lines[0] + "\r") + "\n" + after;
      SplitLine(lines[0] + "\r", after);
      SplitUnlines(lines[1..], rest);
    }
  }

  lemma FromIsNotSubject(rest: string)
    ensures !Matches("From: " + rest, "Subject") && !Blank("From: " + rest)
  {
    assert Lower("From: " + rest)[0] == 'f' && Lower("Subject" + ":")[0] == 's';
  }

  lemma ToIsNotSubject(rest: string)
    ensures !Matches("To: " + rest, "Subject") && !Blank("To: " + rest)
  {
    assert Lower("To: " + rest)[0] == 't' && Lower("Subject" + ":")[0] == 's';
  }

  lemma SubjectMatches(value: string)
    ensures var line := "Subject: " + value + "\r";
            && Matches(line, "Subject") && !Blank(line)
            && TrimSpace(line[8..]) == TrimSpace(value)
  {
    var line := "Subject: " + value + "\r";
    forall i | 0 <= i < 8 ensures Lower("Subject" + ":")[i] == Lower(line)[i] {
      assert ("Subject" + ":")[i] == line[i];
    }
    assert line[8..] == " " + (value + "\r");
    assert (" " + (value + "\r"))[1..] == value + "\r";
    TrimLast(value, '\r');
  }

  /** The third line of the section carries the subject and the two before it do not. */
  lemma ThirdLine(lines: seq<string>, from: string, to: string, value: string)
    requires |lines| > 3
    requires lines[0] == "From: " + from + "\r" && lines[1] == "To: " + to + "\r" && lines[2] == "Subject: " + value + "\r"
    ensures FieldValue(lines, "Subject") == TrimSpace(value)
  {
    assert lines[0] == "From: " + (from + "\r") && lines[1] == "To: " + (to + "\r");
    FromIsNotSubject(from + "\r");
    ToIsNotSubject(to + "\r");
    SubjectMatches(value);
    FoundAt(lines, 2, "Subject");
  }

  lemma FirstThree(env: Env, from: string, fromName: string, to: string, subject: string) returns (sender: string)
    ensures |FixedLines(env, from, fromName, to, subject)| == 8
    ensures FixedLines(env, from, fromName, to, subject)[..3]
         == ["From: " + sender, "To: " + Strip(to), "Subject: " + env.qencode(Strip(subject))]
  {
    var address, name := Strip(from), Strip(fromName);
    sender := if name != "" then env.qencode(name) + " <" + address + ">" else address;
  }

  /** The scanner agrees with the printer: it reads back the encoded subject, trimmed. */
  lemma {:induction false} ScannerReadsSubject(env: Env, from: string, fromName: string, to: string, subject: string,
                            html: seq<Byte>, text: seq<Byte>, extra: seq<(string, string)>, files: seq<Attachment>)
    requires Steady(env)
    ensures FieldValue(SplitLF(Unlines(MessageLines(env, from, fromName, to, subject, html, text, extra, files))), "Subject")
         == TrimSpace(env.qencode(Strip(subject)))
  {
    var head := HeadLines(env, from, fromName, to, subject, extra);
    var fixed := FixedLines(env, from, fromName, to, subject);
    var tail := TailLines(env, html, text, files);
    HeadOneLine(env, from, fromName, to, subject, extra);
    UnlinesConcat(head, tail);
    SplitUnlines(head, Unlines(tail));
    var sender := FirstThree(env, from, fromName, to, subject);
    assert head[..3] == fixed[..3];
    assert head[0] == fixed[..3][0] && head[1] == fixed[..3][1] && head[2] == fixed[..3][2];
    ThirdLine(SplitLF(Unlines(head) + Unlines(tail)), sender, Strip(to), env.qencode(Strip(subject)));
  }
}
