/** The request side of the HTTP subset: the request-line split, the header
    field pattern, and the line-by-line scan that process_request performs
    over the bytes read up to the header terminator. Everything here is a
    function of the received bytes; the answers it leads to are written by
    the Session module. */
module HttpRequest {
  import opened Text

  /** What handle_start asks the connection to read up to. */
  const HeaderTerminator: string := "\r\n\r\n"

  // ----------------------------------------------------------- request line

  /** The three strings parse_request fills in. */
  datatype RequestLine = RequestLine(verb: string, url: string, version: string)

  /** line holds a space and a later second space. */
  predicate HasTwoSpaces(line: string)
  {
    exists i, j :: 0 <= i < j < |line| && line[i] == ' ' && line[j] == ' '
  }

  /** parse_request: split on the first space and on the next space after it.
      As written, the version starts right after the FIRST space (it reuses
      the method's end), so it holds the url as well, its "reached the end"
      test cannot fire once two spaces were found, and nothing checks for
      "HTTP/". */
  function ParseRequestLine(line: string): (r: Option<RequestLine>)
  {
    var verbEnd := FindChar(line, ' ', 0);
    if verbEnd == |line| then None
    else
      var urlStart := verbEnd + 1;
      var urlEnd := FindChar(line, ' ', urlStart);
      if urlEnd == |line| then None
      else
        var versionStart := verbEnd + 1;
        if versionStart == |line| then None
        else Some(RequestLine(line[..verbEnd], line[urlStart..urlEnd], line[versionStart..]))
  }

  /** The request line is accepted exactly when it holds two spaces. */
  lemma ParseRequestLineAccepts(line: string)
    ensures ParseRequestLine(line).Some? <==> HasTwoSpaces(line)
  {
    if HasTwoSpaces(line) {
      var i, j :| 0 <= i < j < |line| && line[i] == ' ' && line[j] == ' ';
      var verbEnd := FindChar(line, ' ', 0);
      assert verbEnd <= i;
      assert FindChar(line, ' ', verbEnd + 1) <= j;
    }
  }

  /** The method is the text before the first space and the url the text
      between the first and the second; the version is everything after the
      first space, so it always begins with the url and a space. */
  lemma ParseRequestLineShape(line: string)
    requires ParseRequestLine(line).Some?
    ensures var r := ParseRequestLine(line).value;
      && ' ' !in r.verb && ' ' !in r.url
      && line == r.verb + " " + r.version
      && r.version == r.url + " " + line[|r.verb| + |r.url| + 2..]
  {
    RequestLineAfterVerb(line);
    RequestLineAfterUrl(line);
  }

  lemma RequestLineAfterVerb(line: string)
    requires ParseRequestLine(line).Some?
    ensures var r := ParseRequestLine(line).value;
      line == r.verb + " " + r.version
  {
    SplitAround(line, FindChar(line, ' ', 0));
  }

  lemma RequestLineAfterUrl(line: string)
    requires ParseRequestLine(line).Some?
    ensures var r := ParseRequestLine(line).value;
      r.version == r.url + " " + line[|r.verb| + |r.url| + 2..]
  {
    var verbEnd := FindChar(line, ' ', 0);
    var urlEnd := FindChar(line, ' ', verbEnd + 1);
    var version := line[verbEnd + 1..];
    var m := urlEnd - verbEnd - 1;
    SplitAround(version, m);
    assert version[m + 1..] == line[urlEnd + 1..];
  }

  // ------------------------------------------------------------ header field

  /** A character the `\s` class matches in the "C" locale: space, tab,
      line feed, vertical tab, form feed, carriage return. */
  predicate IsSpace(c: char)
  {
    c == ' ' || 9 <= c as int <= 13
  }

  /** A character the ECMAScript `.` does not match. */
  predicate IsLineTerminator(c: char)
  {
    c == '\r' || c == '\n'
  }

  /** The field pattern `([^:\s]+)\s*:\s*(.*)` laid over the line with
      a name [0, a) of non-colon non-space characters, spaces [a, b), the
      colon at b, spaces (b, c), and a value [c, |line|) without line
      terminators. */
  ghost predicate FieldSplit(line: string, a: int, b: int, c: int)
  {
    && 0 < a <= b < c <= |line| && line[b] == ':'
    && (forall k :: 0 <= k < a ==> line[k] != ':' && !IsSpace(line[k]))
    && (forall k :: a <= k < b ==> IsSpace(line[k]))
    && (forall k :: b < k < c ==> IsSpace(line[k]))
    && (forall k :: c <= k < |line| ==> !IsLineTerminator(line[k]))
  }

  /** std::regex_match of the field pattern against the whole line. */
  ghost predicate MatchesFieldPattern(line: string)
  {
    exists a, b, c :: FieldSplit(line, a, b, c)
  }

  /** Where a left-to-right match of the field pattern stands. */
  datatype FieldState =
    | NameStart    // nothing read yet: the name needs one character
    | InName       // inside `[^:\s]+`
    | BeforeColon  // inside the `\s*` before the colon
    | AfterColon   // inside the `\s*` after the colon
    | InValue      // inside `.*`

  /** Whether line[k..] completes a match of the field pattern from state
      st. The spaces after the colon are taken greedily: a space there may
      just as well begin the value, but only the leading spaces may include
      line terminators, so the greedy choice loses no match. */
  function FieldFrom(line: string, k: nat, st: FieldState): bool
    requires k <= |line|
    decreases |line| - k
  {
    if k == |line| then st == AfterColon || st == InValue
    else
      var c := line[k];
      match st
      case NameStart => c != ':' && !IsSpace(c) && FieldFrom(line, k + 1, InName)
      case InName =>
        if c == ':' then FieldFrom(line, k + 1, AfterColon)
        else if IsSpace(c) then FieldFrom(line, k + 1, BeforeColon)
        else FieldFrom(line, k + 1, InName)
      case BeforeColon =>
        if c == ':' then FieldFrom(line, k + 1, AfterColon)
        else IsSpace(c) && FieldFrom(line, k + 1, BeforeColon)
      case AfterColon =>
        if IsSpace(c) then FieldFrom(line, k + 1, AfterColon) else FieldFrom(line, k + 1, InValue)
      case InValue => !IsLineTerminator(c) && FieldFrom(line, k + 1, InValue)
  }

  /** The regex_match of the field pattern that process_request performs
      on every header line. */
  predicate IsFieldLine(line: string)
  {
    FieldFrom(line, 0, NameStart)
  }

  /** IsFieldLine accepts exactly the lines the field pattern matches. */
  lemma FieldLineIsPattern(line: string)
    ensures IsFieldLine(line) <==> MatchesFieldPattern(line)
  {
    if IsFieldLine(line) {
      var a, b, c := NameWitness(line, 1);
      assert FieldSplit(line, a, b, c);
    }
    if MatchesFieldPattern(line) {
      var a, b, c :| FieldSplit(line, a, b, c);
      NameAccepted(line, 1, a, b, c);
    }
  }

  // Accepting direction: a split of the line drives the recogniser to the end.

  lemma {:induction false} ValueAccepted(line: string, k: nat)
    requires k <= |line|
    requires forall j :: k <= j < |line| ==> !IsLineTerminator(line[j])
    ensures FieldFrom(line, k, InValue)
    decreases |line| - k
  {
    if k < |line| {
      ValueAccepted(line, k + 1);
    }
  }

  lemma {:induction false} AfterColonAccepted(line: string, k: nat, c: nat)
    requires k <= c <= |line|
    requires forall j :: k <= j < c ==> IsSpace(line[j])
    requires forall j :: c <= j < |line| ==> !IsLineTerminator(line[j])
    ensures FieldFrom(line, k, AfterColon)
    decreases |line| - k
  {
    if k < |line| {
      if IsSpace(line[k]) {
        if k < c {
          AfterColonAccepted(line, k + 1, c);
        } else {
          AfterColonAccepted(line, k + 1, k + 1);
        }
      } else {
        ValueAccepted(line, k + 1);
      }
    }
  }

  lemma {:induction false} BeforeColonAccepted(line: string, k: nat, b: nat, c: nat)
    requires k <= b < c <= |line| && line[b] == ':'
    requires forall j :: k <= j < b ==> IsSpace(line[j])
    requires forall j :: b < j < c ==> IsSpace(line[j])
    requires forall j :: c <= j < |line| ==> !IsLineTerminator(line[j])
    ensures FieldFrom(line, k, BeforeColon)
    decreases b - k
  {
    if k == b {
      AfterColonAccepted(line, b + 1, c);
    } else {
      BeforeColonAccepted(line, k + 1, b, c);
    }
  }

  lemma {:induction false} NameAccepted(line: string, k: nat, a: nat, b: nat, c: nat)
    requires 0 < k <= a
    requires FieldSplit(line, a, b, c)
    ensures k == 1 ==> FieldFrom(line, 0, NameStart)
    ensures FieldFrom(line, k, InName)
    decreases a - k
  {
    if k < a {
      NameAccepted(line, k + 1, a, b, c);
    } else if a == b {
      AfterColonAccepted(line, b + 1, c);
    } else {
      BeforeColonAccepted(line, a + 1, b, c);
    }
  }

  // Matching direction: an accepting run of the recogniser yields a split.

  lemma {:induction false} ValueWitness(line: string, k: nat)
    requires k <= |line| && FieldFrom(line, k, InValue)
    ensures forall j :: k <= j < |line| ==> !IsLineTerminator(line[j])
    decreases |line| - k
  {
    if k < |line| {
      ValueWitness(line, k + 1);
    }
  }

  lemma {:induction false} AfterColonWitness(line: string, k: nat) returns (c: nat)
    requires k <= |line| && FieldFrom(line, k, AfterColon)
    ensures k <= c <= |line|
    ensures forall j :: k <= j < c ==> IsSpace(line[j])
    ensures forall j :: c <= j < |line| ==> !IsLineTerminator(line[j])
    decreases |line| - k
  {
    if k == |line| {
      c := k;
    } else if IsSpace(line[k]) {
      c := AfterColonWitness(line, k + 1);
    } else {
      ValueWitness(line, k + 1);
      c := k;
    }
  }

  lemma {:induction false} BeforeColonWitness(line: string, k: nat) returns (b: nat, c: nat)
    requires k <= |line| && FieldFrom(line, k, BeforeColon)
    ensures k <= b < c <= |line| && line[b] == ':'
    ensures forall j :: k <= j < b ==> IsSpace(line[j])
    ensures forall j :: b < j < c ==> IsSpace(line[j])
    ensures forall j :: c <= j < |line| ==> !IsLineTerminator(line[j])
    decreases |line| - k
  {
    if line[k] == ':' {
      b := k;
      c := AfterColonWitness(line, k + 1);
    } else {
      b, c := BeforeColonWitness(line, k + 1);
    }
  }

  lemma {:induction false} NameWitness(line: string, k: nat) returns (a: nat, b: nat, c: nat)
    requires 0 < k <= |line| && FieldFrom(line, k, InName)
    requires forall j :: 0 <= j < k ==> line[j] != ':' && !IsSpace(line[j])
    ensures FieldSplit(line, a, b, c)
    decreases |line| - k
  {
    if line[k] == ':' {
      a, b := k, k;
      c := AfterColonWitness(line, k + 1);
    } else if IsSpace(line[k]) {
      a := k;
      b, c := BeforeColonWitness(line, k + 1);
    } else {
      a, b, c := NameWitness(line, k + 1);
    }
  }

  // ------------------------------------------------------------- line scan

  /** Where process_request's line loop ends up. */
  datatype Verdict =
    | Serve(url: string)  // empty line with nothing after it: send_file(url)
    | BodyFollows         // empty line followed by more bytes: answer 400
    | Rejected            // request line or a field did not parse: return false
    | Exhausted           // the bytes ran out right after a CRLF: return true, no answer
    | Overrun             // an accepted last line had no CRLF: the iterator would step past the end

  /** The loop of process_request from the line starting at `pos`, the
      `i`-th line, with `url` as parsed so far. */
  function ScanLines(data: string, pos: nat, i: nat, url: string): Verdict
    requires pos <= |data|
    decreases |data| - pos, 1
  {
    if pos == |data| then Exhausted else ScanLine(data, pos, FindCrlf(data, pos), i, url)
  }

  /** One pass of the loop body over the line [pos, found). The empty-line
      test comes before the first-line test, so an empty first line serves
      url "". */
  function ScanLine(data: string, pos: nat, found: nat, i: nat, url: string): Verdict
    requires pos < |data| && pos <= found <= |data|
    requires found < |data| ==> CrlfAt(data, found)
    decreases |data| - pos, 0
  {
    if found == pos then
      if |data| - found - |CRLF| > 0 then BodyFollows else Serve(url)
    else
      match AcceptLine(data[pos..found], i, url)
      case None => Rejected
      case Some(url') =>
        if found == |data| then Overrun else ScanLines(data, found + |CRLF|, i + 1, url')
  }

  /** A non-empty line the loop keeps going after: the first one must parse
      as a request line and gives the url, every later one must match the
      field pattern and leaves the url as it was. */
  function AcceptLine(line: string, i: nat, url: string): Option<string>
  {
    if i == 0 then
      match ParseRequestLine(line)
      case None => None
      case Some(r) => Some(r.url)
    else if IsFieldLine(line) then Some(url)
    else None
  }

  /** The verdict for a whole read buffer. */
  function ScanRequest(data: string): Verdict
  {
    ScanLines(data, 0, 0, "")
  }

  /** data holds the header terminator somewhere (what a successful
      async_read_until for it guarantees). */
  predicate HasHeaderTerminator(data: string)
  {
    exists p :: 0 <= p < |data| && CrlfAt(data, p) && CrlfAt(data, p + 2)
  }

  /** Scanning from a line start at or before a CRLF CRLF at p (or right
      after its first CRLF) stops there or earlier. */
  lemma {:induction false} ScanStopsAtTerminator(data: string, p: nat, pos: nat, i: nat, url: string)
    requires CrlfAt(data, p) && CrlfAt(data, p + 2)
    requires pos <= p || pos == p + 2
    ensures ScanLines(data, pos, i, url) != Exhausted && ScanLines(data, pos, i, url) != Overrun
    decreases |data| - pos
  {
    var found := FindCrlf(data, pos);
    assert ScanLines(data, pos, i, url) == ScanLine(data, pos, found, i, url);
    if pos == p + 2 {
      assert found == pos;
    } else {
      assert found <= p;
      if found != pos {
        if found < p {
          assert found != p - 1;
        }
        match AcceptLine(data[pos..found], i, url)
        case None =>
        case Some(url') =>
          ScanStopsAtTerminator(data, p, found + 2, i + 1, url');
      }
    }
  }

  /** A buffer that holds the header terminator always leads to an answer or
      a parse failure: the loop never runs out of bytes and never steps its
      iterator past the end. */
  lemma TerminatedRequestStops(data: string)
    requires HasHeaderTerminator(data)
    ensures ScanRequest(data).Serve? || ScanRequest(data).BodyFollows? || ScanRequest(data).Rejected?
  {
    var p :| 0 <= p < |data| && CrlfAt(data, p) && CrlfAt(data, p + 2);
    ScanStopsAtTerminator(data, p, 0, 0, "");
  }

  /** A buffer that starts with CRLF is taken as the end of the headers before
      any request line is parsed: it serves url "" when nothing follows and
      answers 400 otherwise. */
  lemma LeadingEmptyLine(rest: string)
    ensures ScanRequest(CRLF + rest) == if rest == [] then Serve("") else BodyFollows
  {
    var data := CRLF + rest;
    assert CrlfAt(data, 0);
    assert ScanRequest(data) == ScanLine(data, 0, 0, 0, "");
  }

  /** One pass of the loop, from a line start that is not the end. */
  lemma ScanStep(data: string, pos: nat, i: nat, url: string)
    requires pos < |data|
    ensures var found := FindCrlf(data, pos);
      && (found == pos ==>
            ScanLines(data, pos, i, url) == if |data| - found - |CRLF| > 0 then BodyFollows else Serve(url))
      && (found != pos && AcceptLine(data[pos..found], i, url).None? ==>
            ScanLines(data, pos, i, url) == Rejected)
      && (found != pos && AcceptLine(data[pos..found], i, url).Some? ==>
            ScanLines(data, pos, i, url) ==
              if found == |data| then Overrun
              else ScanLines(data, found + |CRLF|, i + 1, AcceptLine(data[pos..found], i, url).value))
  {
    assert ScanLines(data, pos, i, url) == ScanLine(data, pos, FindCrlf(data, pos), i, url);
  }

  /** One accepted line, followed by CRLF, moves the scan to the next line. */
  lemma ScanAcceptedLine(data: string, pos: nat, i: nat, url: string, line: string, url': string)
    requires pos + |line| + 2 <= |data| && FindCrlf(data, pos) == pos + |line|
    requires line != [] && data[pos..pos + |line|] == line
    requires AcceptLine(line, i, url) == Some(url')
    ensures ScanLines(data, pos, i, url) == ScanLines(data, pos + |line| + 2, i + 1, url')
  {
    assert ScanLines(data, pos, i, url) == ScanLine(data, pos, pos + |line|, i, url);
  }

  /** An accepted request line moves the scan to the first header line. */
  lemma ScanRequestLine(data: string, line: string)
    requires |line| + 2 <= |data| && FindCrlf(data, 0) == |line|
    requires line != [] && data[..|line|] == line
    requires ParseRequestLine(line).Some?
    ensures ScanRequest(data) == ScanLines(data, |line| + 2, 1, ParseRequestLine(line).value.url)
  {
    assert data[0..|line|] == line;
    ScanAcceptedLine(data, 0, 0, "", line, ParseRequestLine(line).value.url);
  }

  /** A header line that matches the field pattern moves the scan to the
      next line. */
  lemma ScanFieldLine(data: string, pos: nat, i: nat, url: string, line: string)
    requires pos + |line| + 2 <= |data| && FindCrlf(data, pos) == pos + |line|
    requires line != [] && data[pos..pos + |line|] == line
    requires 0 < i && IsFieldLine(line)
    ensures ScanLines(data, pos, i, url) == ScanLines(data, pos + |line| + 2, i + 1, url)
  {
    ScanAcceptedLine(data, pos, i, url, line, url);
  }

  /** A rejected line ends the scan. */
  lemma ScanRejectedLine(data: string, pos: nat, i: nat, url: string, line: string)
    requires pos + |line| <= |data| && FindCrlf(data, pos) == pos + |line|
    requires line != [] && data[pos..pos + |line|] == line
    requires AcceptLine(line, i, url) == None
    ensures ScanLines(data, pos, i, url) == Rejected
  {
    assert ScanLines(data, pos, i, url) == ScanLine(data, pos, pos + |line|, i, url);
  }

  /** A header line that does not match the field pattern ends the scan. */
  lemma ScanBadFieldLine(data: string, pos: nat, i: nat, url: string, line: string)
    requires pos + |line| <= |data| && FindCrlf(data, pos) == pos + |line|
    requires line != [] && data[pos..pos + |line|] == line
    requires 0 < i && !IsFieldLine(line)
    ensures ScanLines(data, pos, i, url) == Rejected
  {
    ScanRejectedLine(data, pos, i, url, line);
  }

  /** An empty line ends the scan. */
  lemma ScanEmptyLine(data: string, pos: nat, i: nat, url: string)
    requires pos + 2 <= |data| && FindCrlf(data, pos) == pos
    ensures ScanLines(data, pos, i, url) == if pos + 2 == |data| then Serve(url) else BodyFollows
  {
    assert ScanLines(data, pos, i, url) == ScanLine(data, pos, pos, i, url);
  }

  // ----------------------------------------------------- well-formed input

  /** Header lines, each followed by CRLF. */
  function FieldBlock(fields: seq<string>): string
  {
    if fields == [] then [] else fields[0] + CRLF + FieldBlock(fields[1..])
  }

  /** Every field line is non-empty, free of CRLF and matches the pattern. */
  predicate WellFormedFields(fields: seq<string>)
  {
    forall k :: 0 <= k < |fields| ==> fields[k] != [] && NoCrlf(fields[k]) && IsFieldLine(fields[k])
  }

  /** From the first header line on, well-formed fields followed by the empty
      line end the scan at that empty line. */
  lemma {:induction false} ScanFields(data: string, pos: nat, i: nat, url: string, fields: seq<string>, body: string)
    requires 0 < i && pos <= |data|
    requires data[pos..] == FieldBlock(fields) + CRLF + body
    requires WellFormedFields(fields)
    ensures ScanLines(data, pos, i, url) == if body == [] then Serve(url) else BodyFollows
    decreases fields
  {
    if fields == [] {
      assert data[pos..] == [] + CRLF + body;
      LineThenCrlf(data, pos, [], body);
      ScanEmptyLine(data, pos, i, url);
    } else {
      var line := fields[0];
      var next := pos + |line| + 2;
      FirstFieldLine(data, pos, fields, CRLF + body);
      ScanFieldLine(data, pos, i, url, line);
      ScanFields(data, next, i + 1, url, fields[1..], body);
    }
  }

  /** Peeling the first line off a block of well-formed fields, whatever
      follows the block. */
  lemma FirstFieldLine(data: string, pos: nat, fields: seq<string>, tail: string)
    requires pos <= |data| && fields != []
    requires data[pos..] == FieldBlock(fields) + tail
    requires WellFormedFields(fields)
    ensures var line := fields[0];
      && line != [] && IsFieldLine(line)
      && pos + |line| + 2 <= |data| && FindCrlf(data, pos) == pos + |line|
      && data[pos..pos + |line|] == line
      && data[pos + |line| + 2..] == FieldBlock(fields[1..]) + tail
      && WellFormedFields(fields[1..])
  {
    var line := fields[0];
    var rest := FieldBlock(fields[1..]) + tail;
    assert data[pos..] == line + CRLF + rest;
    assert line != [] && NoCrlf(line) && IsFieldLine(line);
    LineThenCrlf(data, pos, line, rest);
    assert WellFormedFields(fields[1..]) by {
      forall k | 0 <= k < |fields| - 1 ensures fields[1..][k] == fields[k + 1] { }
    }
  }

  /** A well-formed request — an accepted request line, well-formed fields,
      the empty line — makes process_request serve the url of the request
      line, or answer 400 when bytes follow the empty line. */
  lemma WellFormedRequestIsServed(line: string, fields: seq<string>, body: string)
    requires line != [] && NoCrlf(line) && ParseRequestLine(line).Some?
    requires WellFormedFields(fields)
    ensures var data := line + CRLF + FieldBlock(fields) + CRLF + body;
      ScanRequest(data) == if body == [] then Serve(ParseRequestLine(line).value.url) else BodyFollows
  {
    var data := line + CRLF + FieldBlock(fields) + CRLF + body;
    var rest := FieldBlock(fields) + CRLF + body;
    var url := ParseRequestLine(line).value.url;
    assert data[0..] == line + CRLF + rest;
    LineThenCrlf(data, 0, line, rest);
    ScanRequestLine(data, line);
    ScanFields(data, |line| + 2, 1, url, fields, body);
  }

  /** A non-empty first line that parse_request refuses makes process_request
      fail, whatever follows. */
  lemma MalformedRequestLineIsRejected(line: string, rest: string)
    requires line != [] && NoCrlf(line) && ParseRequestLine(line).None?
    ensures ScanRequest(line + CRLF + rest) == Rejected
  {
    var data := line + CRLF + rest;
    assert data[0..] == data;
    LineThenCrlf(data, 0, line, rest);
    ScanRejectedLine(data, 0, 0, "", line);
  }

  /** A non-empty header line that does not match the field pattern makes
      process_request fail, whatever follows, after any number of
      well-formed header lines. */
  lemma MalformedFieldIsRejected(line: string, fields: seq<string>, field: string, rest: string)
    requires line != [] && NoCrlf(line) && ParseRequestLine(line).Some?
    requires WellFormedFields(fields)
    requires field != [] && NoCrlf(field) && !IsFieldLine(field)
    ensures ScanRequest(line + CRLF + FieldBlock(fields) + field + CRLF + rest) == Rejected
  {
    var tail := FieldBlock(fields) + (field + CRLF + rest);
    var data := line + CRLF + tail;
    assert data == line + CRLF + FieldBlock(fields) + field + CRLF + rest;
    RequestLineThen(line, tail);
    FieldsThenBadField(data, |line| + 2, 1, ParseRequestLine(line).value.url, fields, field, rest);
  }

  /** An accepted request line hands the scan to the line after it. */
  lemma RequestLineThen(line: string, tail: string)
    requires line != [] && NoCrlf(line) && ParseRequestLine(line).Some?
    ensures var data := line + CRLF + tail;
      && (line + CRLF + tail)[|line| + 2..] == tail
      && ScanRequest(data) == ScanLines(data, |line| + 2, 1, ParseRequestLine(line).value.url)
  {
    var data := line + CRLF + tail;
    assert data[0..] == line + CRLF + tail;
    LineThenCrlf(data, 0, line, tail);
    ScanRequestLine(data, line);
  }

  /** From the first header line on, well-formed fields followed by a bad
      one end the scan at the bad one. */
  lemma {:induction false} FieldsThenBadField(data: string, pos: nat, i: nat, url: string,
                                              fields: seq<string>, field: string, rest: string)
    requires 0 < i && pos <= |data|
    requires data[pos..] == FieldBlock(fields) + (field + CRLF + rest)
    requires WellFormedFields(fields)
    requires field != [] && NoCrlf(field) && !IsFieldLine(field)
    ensures ScanLines(data, pos, i, url) == Rejected
    decreases fields
  {
    if fields == [] {
      assert data[pos..] == field + CRLF + rest;
      BadFieldAt(data, pos, i, url, field, rest);
    } else {
      var line := fields[0];
      FirstFieldLine(data, pos, fields, field + CRLF + rest);
      ScanFieldLine(data, pos, i, url, line);
      FieldsThenBadField(data, pos + |line| + 2, i + 1, url, fields[1..], field, rest);
    }
  }

  /** A bad field line at pos, followed by CRLF, ends the scan. */
  lemma BadFieldAt(data: string, pos: nat, i: nat, url: string, field: string, rest: string)
    requires 0 < i && pos <= |data| && data[pos..] == field + CRLF + rest
    requires field != [] && NoCrlf(field) && !IsFieldLine(field)
    ensures ScanLines(data, pos, i, url) == Rejected
  {
    LineThenCrlf(data, pos, field, rest);
    ScanBadFieldLine(data, pos, i, url, field);
  }
}
