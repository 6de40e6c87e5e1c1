/** The response side of the HTTP subset: the bytes make_simple_answer
    writes for an answer, a reader that takes those bytes apart again, and
    the answer send_file picks for a url. */
module HttpResponse {
  import opened Text

  /** make_simple_answer takes the status code as an unsigned short. */
  type StatusCode = c: nat | c < 0x1_0000

  /** A status code, its reason phrase and a body. */
  datatype Answer = Answer(code: StatusCode, reason: string, body: string)

  const StatusPrefix: string := "HTTP/1.0 "
  const ConnectionField: string := "Connection: Closed\r\n"
  const LengthPrefix: string := "Content-Length: "
  /** What follows the length digits: the type field and the empty line. */
  const TypeField: string := "\r\nContent-Type: text/html\r\n\r\n"

  /** The answers the server sends. */
  const BadRequest := Answer(400, "Bad Request", "I don't understand what you want")
  const ParseFailure := Answer(500, "Internal Error", "Whaat?")
  const NoContent := Answer(204, "No Content", "Is not a file")
  const NotFound := Answer(404, "Not Found", "Sorry :(")
  const ReadFailure := Answer(500, "Internal Error", "Whoops!")

  predicate StartsWith(s: string, p: string)
  {
    |p| <= |s| && s[..|p|] == p
  }

  // ------------------------------------------------------------- rendering

  /** The status line, CRLF included. */
  function StatusLine(code: StatusCode, reason: string): string
  {
    StatusPrefix + Decimal(code) + " " + reason + CRLF
  }

  /** Everything after the Connection field: the length and type fields and
      the empty line, then the body; or only the empty line when the body is
      empty. */
  function Fields(body: string): string
  {
    if body == [] then CRLF else LengthPrefix + Decimal(|body|) + TypeField + body
  }

  /** The bytes make_simple_answer hands to the connection. */
  function Render(a: Answer): string
  {
    StatusLine(a.code, a.reason) + ConnectionField + Fields(a.body)
  }

  // --------------------------------------------------------------- reading

  /** Reads a status line: the code, the reason and what follows the line. */
  function ParseStatusLine(r: string): Option<(StatusCode, string, string)>
  {
    if !StartsWith(r, StatusPrefix) then None
    else
      var s := r[|StatusPrefix|..];
      var d := DigitRun(s, 0);
      if d == 0 || d == |s| || s[d] != ' ' then None
      else
        var code := DigitsValue(s[..d]);
        if code >= 0x1_0000 then None
        else
          var t := s[d + 1..];
          var e := FindCrlf(t, 0);
          if e == |t| then None else Some((code, t[..e], t[e + 2..]))
  }

  /** Reads the header fields and the body. */
  function ParseFields(s: string): Option<string>
  {
    if !StartsWith(s, ConnectionField) then None
    else
      var t := s[|ConnectionField|..];
      if t == CRLF then Some([]) else ParseSizedBody(t)
  }

  /** Reads the length and type fields, the empty line and the body: the
      body is accepted only when Content-Length gives its exact length. */
  function ParseSizedBody(t: string): Option<string>
  {
    if !StartsWith(t, LengthPrefix) then None
    else
      var u := t[|LengthPrefix|..];
      var d := DigitRun(u, 0);
      if d == 0 then None
      else
        var v := u[d..];
        if !StartsWith(v, TypeField) then None
        else
          var body := v[|TypeField|..];
          if body == [] || |body| != DigitsValue(u[..d]) then None else Some(body)
  }

  /** Reads a whole response. */
  function ParseAnswer(r: string): Option<Answer>
  {
    match ParseStatusLine(r)
    case None => None
    case Some((code, reason, rest)) =>
      match ParseFields(rest)
      case None => None
      case Some(body) => Some(Answer(code, reason, body))
  }

  lemma StatusLineRoundTrip(code: StatusCode, reason: string, rest: string)
    requires NoCrlf(reason)
    ensures ParseStatusLine(StatusLine(code, reason) + rest) == Some((code, reason, rest))
  {
    var digits := Decimal(code);
    var t := reason + CRLF + rest;
    var s := digits + ([' '] + t);
    var r := StatusLine(code, reason) + rest;
    assert r == StatusPrefix + s;
    assert r[..|StatusPrefix|] == StatusPrefix && r[|StatusPrefix|..] == s;
    DigitRunOfPrefix(digits, [' '] + t);
    assert s[..|digits|] == digits;
    DecimalRoundTrip(code);
    assert s[|digits| + 1..] == t;
    assert t[0..] == t;
    LineThenCrlf(t, 0, reason, rest);
  }

  lemma FieldsRoundTrip(body: string)
    ensures ParseFields(ConnectionField + Fields(body)) == Some(body)
  {
    var s := ConnectionField + Fields(body);
    assert s[..|ConnectionField|] == ConnectionField;
    assert s[|ConnectionField|..] == Fields(body);
    if body != [] {
      assert Fields(body)[0] == 'C';
      SizedBodyRoundTrip(body);
    }
  }

  lemma SizedBodyRoundTrip(body: string)
    requires body != []
    ensures ParseSizedBody(Fields(body)) == Some(body)
  {
    DecimalRoundTrip(|body|);
    SizedBodyReads(Decimal(|body|), body);
  }

  /** The length field is read up to the first non-digit, and the body is
      taken when its length is the number the digits spell. */
  lemma SizedBodyReads(digits: string, body: string)
    requires digits != [] && AllDigits(digits)
    requires body != [] && DigitsValue(digits) == |body|
    ensures ParseSizedBody(LengthPrefix + digits + TypeField + body) == Some(body)
  {
    var v := TypeField + body;
    var u := digits + v;
    var t := LengthPrefix + digits + TypeField + body;
    assert t == LengthPrefix + u;
    assert t[..|LengthPrefix|] == LengthPrefix && t[|LengthPrefix|..] == u;
    DigitRunOfPrefix(digits, v);
    assert u[..|digits|] == digits && u[|digits|..] == v;
    assert v[..|TypeField|] == TypeField && v[|TypeField|..] == body;
  }

  /** Reading back what make_simple_answer wrote gives the code, the reason
      and the body it was given; in particular Content-Length is the body's
      exact length and the body is the exact tail of the bytes. The reason
      must not hold a CRLF of its own. */
  lemma RenderRoundTrip(a: Answer)
    requires NoCrlf(a.reason)
    ensures ParseAnswer(Render(a)) == Some(a)
  {
    var rest := ConnectionField + Fields(a.body);
    assert Render(a) == StatusLine(a.code, a.reason) + rest;
    StatusLineRoundTrip(a.code, a.reason, rest);
    FieldsRoundTrip(a.body);
  }

  /** Distinct answers give distinct bytes. */
  lemma RenderInjective(a: Answer, b: Answer)
    requires NoCrlf(a.reason) && NoCrlf(b.reason)
    requires Render(a) == Render(b)
    ensures a == b
  {
    RenderRoundTrip(a);
    RenderRoundTrip(b);
  }

  // ------------------------------------------------------------- send_file

  /** The part of the url send_file keeps: everything before the first `?`
      if there is one, else everything before the first `#`, else all of it. */
  function StripQuery(url: string): (loc: string)
    ensures loc <= url
  {
    var q := FindChar(url, '?', 0);
    var cut := if q < |url| then q else FindChar(url, '#', 0);
    url[..cut]
  }

  /** The query mark wins over the fragment mark wherever each sits: the
      cut is at the first `?` when there is one, at the first `#` only
      when there is no `?`, and nowhere otherwise. */
  lemma {:induction false} StripQueryCuts(url: string)
    ensures var loc := StripQuery(url);
      && ('?' in url ==> |loc| < |url| && url[|loc|] == '?' && '?' !in loc)
      && ('?' !in url && '#' in url ==> |loc| < |url| && url[|loc|] == '#' && '#' !in loc)
      && ('?' !in url && '#' !in url ==> loc == url)
  {
    var loc := StripQuery(url);
    FindCharAbsent(url, '?');
    FindCharAbsent(url, '#');
    assert forall k :: 0 <= k < |loc| ==> loc[k] == url[k];
  }

  /** The location send_file looks up: the stripped url, with exactly "/"
      standing for "/index.html". */
  function Location(url: string): string
  {
    var loc := StripQuery(url);
    if loc == "/" then "/index.html" else loc
  }

  lemma RootQueryIsIndex()
    ensures Location("/?x") == "/index.html"
  {
    assert FindChar("/?x", '?', 0) == 1;
  }

  lemma QueryBeatsEarlierFragment()
    ensures Location("/a#b?c") == "/a#b"
  {
    assert FindChar("/a#b?c", '?', 0) == 4;
  }

  /** What the filesystem answers about a location (the web root joined with
      it): whether the path names a file, whether it exists, and its bytes
      if it can be opened. */
  datatype FileSystem = FileSystem(
    hasFilename: string -> bool,
    isPresent: string -> bool,
    read: string -> Option<string>)

  /** send_file's answer: exactly one of four, tried in this order. */
  function FileAnswer(url: string, fs: FileSystem): (a: Answer)
    ensures var loc := Location(url);
      && (a == NoContent <==> !fs.hasFilename(loc))
      && (a == NotFound <==> fs.hasFilename(loc) && !fs.isPresent(loc))
      && (a == ReadFailure <==> fs.hasFilename(loc) && fs.isPresent(loc) && fs.read(loc).None?)
      && (a.code == 200 <==> fs.hasFilename(loc) && fs.isPresent(loc) && fs.read(loc).Some?)
      && (a.code == 200 ==> a.reason == "OK" && a.body == fs.read(loc).value)
  {
    var loc := Location(url);
    if !fs.hasFilename(loc) then NoContent
    else if !fs.isPresent(loc) then NotFound
    else
      match fs.read(loc)
      case Some(content) => Answer(200, "OK", content)
      case None => ReadFailure
  }
}
