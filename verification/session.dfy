/** One client session: the connection, which owns the socket and keeps the
    statistics counters, and the HTTP handler, which reads one request,
    writes at most one answer and closes. Socket completions arrive as
    arguments (an error kind and a byte count); the socket itself is reduced
    to a closed flag and the lists of reads and writes issued on it, in the
    order they were issued. */
module Session {
  import opened Text
  import opened HttpRequest
  import opened HttpResponse

  /** An address and a port, as a tcp::endpoint holds them. */
  datatype Endpoint = Endpoint(address: string, port: nat)

  /** What a default-constructed endpoint holds. */
  const Unspecified := Endpoint("0.0.0.0", 0)

  /** How an asynchronous operation completed. */
  datatype ErrorCode = Success | Eof | OperationAborted | OtherError(value: int)

  /** A completion: its error code and the bytes it transferred. */
  datatype Completion = Completion(ec: ErrorCode, bytes: nat)

  /** The four statistics counters of a connection. */
  datatype Statistics = Statistics(sent: nat, received: nat, readCount: nat, writeCount: nat)

  const NoTraffic := Statistics(0, 0, 0, 0)

  // ---------------------------------------------------------- statistics

  /** The counters after one read completion: only a success counts. */
  function AfterRead(s: Statistics, c: Completion): Statistics
  {
    if c.ec == Success then s.(readCount := s.readCount + 1, received := s.received + c.bytes) else s
  }

  /** The counters after one write completion: only a success counts. */
  function AfterWrite(s: Statistics, c: Completion): Statistics
  {
    if c.ec == Success then s.(writeCount := s.writeCount + 1, sent := s.sent + c.bytes) else s
  }

  /** The counters after a run of read completions, taken in order. */
  function AfterReads(s: Statistics, cs: seq<Completion>): Statistics
    decreases |cs|
  {
    if cs == [] then s else AfterReads(AfterRead(s, cs[0]), cs[1..])
  }

  /** The counters after a run of write completions, taken in order. */
  function AfterWrites(s: Statistics, cs: seq<Completion>): Statistics
    decreases |cs|
  {
    if cs == [] then s else AfterWrites(AfterWrite(s, cs[0]), cs[1..])
  }

  /** The byte counts of the successful completions, in order. */
  function Delivered(cs: seq<Completion>): seq<nat>
  {
    if cs == [] then []
    else (if cs[0].ec == Success then [cs[0].bytes] else []) + Delivered(cs[1..])
  }

  function Sum(xs: seq<nat>): nat
  {
    if xs == [] then 0 else xs[0] + Sum(xs[1..])
  }

  lemma SumCons(x: nat, xs: seq<nat>)
    ensures Sum([x] + xs) == x + Sum(xs)
  {
    assert ([x] + xs)[1..] == xs;
  }

  /** After a run of read completions the read counter has grown by the
      number of successes and the received counter by the sum of their
      sizes; the write counters have not moved. */
  lemma {:induction false} ReadCounters(s: Statistics, cs: seq<Completion>)
    ensures var t := AfterReads(s, cs);
      && t.readCount == s.readCount + |Delivered(cs)|
      && t.received == s.received + Sum(Delivered(cs))
      && t.writeCount == s.writeCount && t.sent == s.sent
    decreases |cs|
  {
    if cs != [] {
      ReadCounters(AfterRead(s, cs[0]), cs[1..]);
      if cs[0].ec == Success {
        SumCons(cs[0].bytes, Delivered(cs[1..]));
      } else {
        assert Delivered(cs) == Delivered(cs[1..]);
      }
    }
  }

  /** After a run of write completions the write counter has grown by the
      number of successes and the sent counter by the sum of their sizes;
      the read counters have not moved. */
  lemma {:induction false} WriteCounters(s: Statistics, cs: seq<Completion>)
    ensures var t := AfterWrites(s, cs);
      && t.writeCount == s.writeCount + |Delivered(cs)|
      && t.sent == s.sent + Sum(Delivered(cs))
      && t.readCount == s.readCount && t.received == s.received
    decreases |cs|
  {
    if cs != [] {
      WriteCounters(AfterWrite(s, cs[0]), cs[1..]);
      if cs[0].ec == Success {
        SumCons(cs[0].bytes, Delivered(cs[1..]));
      } else {
        assert Delivered(cs) == Delivered(cs[1..]);
      }
    }
  }

  // ------------------------------------------------------------ answers

  /** The answer process_request writes for a verdict: the file for an
      empty line at the end, 400 for an empty line with bytes after it,
      nothing otherwise. */
  function ProcessAnswer(v: Verdict, fs: FileSystem): Option<Answer>
  {
    match v
    case Serve(url) => Some(FileAnswer(url, fs))
    case BodyFollows => Some(BadRequest)
    case _ => None
  }

  /** The answer handle_read writes for a read buffer: process_request's,
      or 500 "Whaat?" when it failed. */
  function ReadAnswer(data: string, fs: FileSystem): Option<Answer>
  {
    var v := ScanRequest(data);
    if v.Rejected? then Some(ParseFailure) else ProcessAnswer(v, fs)
  }

  /** The bytes written for an optional answer. */
  function Written(a: Option<Answer>): seq<string>
  {
    match a
    case None => []
    case Some(x) => [Render(x)]
  }

  /** A buffer read up to the header terminator always gets exactly one
      answer. */
  lemma TerminatedReadIsAnswered(data: string, fs: FileSystem)
    requires HasHeaderTerminator(data)
    ensures ReadAnswer(data, fs).Some? && |Written(ReadAnswer(data, fs))| == 1
  {
    TerminatedRequestStops(data);
  }

  /** A well-formed request for a file that exists and opens is answered
      200 "OK" with the file's bytes, and a reader of the written bytes gets
      exactly that answer back. */
  lemma WellFormedRequestGetsFile(line: string, fields: seq<string>, fs: FileSystem, content: string)
    requires line != [] && NoCrlf(line) && ParseRequestLine(line).Some?
    requires WellFormedFields(fields)
    requires var loc := Location(ParseRequestLine(line).value.url);
      fs.hasFilename(loc) && fs.isPresent(loc) && fs.read(loc) == Some(content)
    ensures var data := line + CRLF + FieldBlock(fields) + CRLF;
      && ReadAnswer(data, fs) == Some(Answer(200, "OK", content))
      && ParseAnswer(Written(ReadAnswer(data, fs))[0]) == Some(Answer(200, "OK", content))
  {
    WellFormedRequestIsServed(line, fields, []);
    assert line + CRLF + FieldBlock(fields) + CRLF + [] == line + CRLF + FieldBlock(fields) + CRLF;
    assert NoCrlf("OK");
    RenderRoundTrip(Answer(200, "OK", content));
  }

  /** A request whose first line does not parse is answered 500 "Whaat?". */
  lemma MalformedRequestGetsParseFailure(line: string, rest: string, fs: FileSystem)
    requires line != [] && NoCrlf(line) && ParseRequestLine(line).None?
    ensures ReadAnswer(line + CRLF + rest, fs) == Some(ParseFailure)
    ensures ParseAnswer(Written(ReadAnswer(line + CRLF + rest, fs))[0]) == Some(ParseFailure)
  {
    MalformedRequestLineIsRejected(line, rest);
    assert NoCrlf(ParseFailure.reason) by {
      forall k | 0 <= k < |ParseFailure.reason| ensures ParseFailure.reason[k] != '\r' { }
    }
    RenderRoundTrip(ParseFailure);
  }

  /** Bytes after the empty line of a well-formed request get 400. */
  lemma BodyAfterHeadersGetsBadRequest(line: string, fields: seq<string>, body: string, fs: FileSystem)
    requires line != [] && NoCrlf(line) && ParseRequestLine(line).Some?
    requires WellFormedFields(fields) && body != []
    ensures ReadAnswer(line + CRLF + FieldBlock(fields) + CRLF + body, fs) == Some(BadRequest)
  {
    WellFormedRequestIsServed(line, fields, body);
  }

  // ---------------------------------------------------------- connection

  /** A client connection and its statistics. */
  class Connection {
    var sentBytes: nat
    var receivedBytes: nat
    var readsCount: nat
    var writesCount: nat
    /** The peer's endpoint as it was when the connection was accepted; kept
        because asking the socket later can fail. */
    var remoteEndpoint: Endpoint
    /** The handler. The connection only refers to it and never keeps it
        alive; the pending operations do. */
    var processHandler: HttpConnection?
    /** The connection's reference to itself, set by Create. */
    var weakThis: Connection?
    /** Whether close() has shut the socket down. */
    var closed: bool
    /** The delimiters of the reads issued on the socket, in order. */
    var readRequests: seq<string>
    /** The buffers written to the socket, in order. */
    var writeRequests: seq<string>

    /** The counters, as the four getters report them. */
    function Stats(): Statistics
      reads this`sentBytes, this`receivedBytes, this`readsCount, this`writesCount
    {
      Statistics(sentBytes, receivedBytes, readsCount, writesCount)
    }

    function BytesSent(): nat
      reads this`sentBytes
    {
      sentBytes
    }

    function BytesReceived(): nat
      reads this`receivedBytes
    {
      receivedBytes
    }

    function CountReads(): nat
      reads this`readsCount
    {
      readsCount
    }

    function CountWrites(): nat
      reads this`writesCount
    {
      writesCount
    }

    /** The cached peer endpoint; the socket is not consulted. */
    function RemoteEndpoint(): Endpoint
      reads this`remoteEndpoint
    {
      remoteEndpoint
    }

    /** A connection waiting to be accepted: no traffic yet. */
    constructor()
      ensures Stats() == NoTraffic
      ensures remoteEndpoint == Unspecified && processHandler == null && weakThis == null
      ensures !closed && readRequests == [] && writeRequests == []
    {
      sentBytes, receivedBytes, readsCount, writesCount := 0, 0, 0, 0;
      remoteEndpoint := Unspecified;
      processHandler := null;
      weakThis := null;
      closed := false;
      readRequests, writeRequests := [], [];
    }

    /** A new connection that refers to itself. */
    static method Create() returns (p: Connection)
      ensures fresh(p) && p.weakThis == p
      ensures p.Stats() == NoTraffic && p.remoteEndpoint == Unspecified && p.processHandler == null
      ensures !p.closed && p.readRequests == [] && p.writeRequests == []
    {
      p := new Connection();
      p.weakThis := p;
    }

    /** The socket was accepted: cache the peer's endpoint, make the HTTP
        handler, remember it and let it issue its first read. Asking the
        socket for the peer throws when the peer has already gone (peer is
        None); then the exception leaves before anything is cached, made or
        issued. */
    method OnConnection(peer: Option<Endpoint>) returns (handler: HttpConnection?)
      modifies this`remoteEndpoint, this`processHandler, this`readRequests
      ensures peer.None? ==>
        && handler == null && remoteEndpoint == old(remoteEndpoint)
        && processHandler == old(processHandler) && readRequests == old(readRequests)
      ensures peer.Some? ==>
        && handler != null && fresh(handler) && handler.conn == this
        && remoteEndpoint == peer.value && processHandler == handler
        && readRequests == old(readRequests) + [HeaderTerminator]
    {
      if peer.None? {
        return null;
      }
      remoteEndpoint := peer.value;
      var h := new HttpConnection(this);
      processHandler := h;
      h.HandleStart();
      handler := h;
    }

    /** Issue a read up to delim. */
    method DoReadUntil(delim: string)
      modifies this`readRequests
      ensures readRequests == old(readRequests) + [delim]
    {
      readRequests := readRequests + [delim];
    }

    /** Issue a write of buf. */
    method DoWriteCb(buf: string)
      modifies this`writeRequests
      ensures writeRequests == old(writeRequests) + [buf]
    {
      writeRequests := writeRequests + [buf];
    }

    /** Shut the socket down and close it. */
    method Close()
      modifies this`closed
      ensures closed
    {
      closed := true;
    }

    /** A read completed. On success the counters move and the handler is
        called with the buffer it read into; if the handler throws (modelled
        as throwing before it changes anything) the connection is closed.
        Any error only ends the reading: no counter, no handler, no close. */
    method HandleRead(handler: HttpConnection, c: Completion, data: string, fs: FileSystem, handlerThrows: bool)
      returns (handled: bool)
      requires handler.conn == this
      modifies this`readsCount, this`receivedBytes, this`writeRequests, this`closed, handler`conn
      ensures Stats() == AfterRead(old(Stats()), c)
      ensures handled <==> c.ec == Success
      ensures !handled ==> writeRequests == old(writeRequests) && closed == old(closed) && handler.conn == this
      ensures handled && handlerThrows ==> writeRequests == old(writeRequests) && closed && handler.conn == this
      ensures handled && !handlerThrows ==>
        writeRequests == old(writeRequests) + Written(ReadAnswer(data, fs)) && closed && handler.conn == null
    {
      handled := false;
      if c.ec == Success {
        readsCount := readsCount + 1;
        receivedBytes := receivedBytes + c.bytes;
        handled := true;
        if handlerThrows {
          Close();
        } else {
          handler.HandleRead(data, fs);
        }
      } else if c.ec == Eof {
        // the peer closed the connection
      } else if c.ec == OperationAborted {
        // the read was cancelled
      } else {
        // any other failure
      }
    }

    /** A write issued with do_write completed; the handler's handle_write
        does nothing, so only the counters and a possible exception count. */
    method HandleWrite(c: Completion, handlerThrows: bool) returns (handled: bool)
      modifies this`writesCount, this`sentBytes, this`closed
      ensures Stats() == AfterWrite(old(Stats()), c)
      ensures handled <==> c.ec == Success
      ensures closed == (old(closed) || (handled && handlerThrows))
    {
      handled := false;
      if c.ec == Success {
        writesCount := writesCount + 1;
        sentBytes := sentBytes + c.bytes;
        handled := true;
        if handlerThrows {
          Close();
        }
      }
    }

    /** A write issued with do_write_cb completed: on success the counters
        move and the callback runs; a callback that throws closes the
        connection. */
    method HandleWriteCb(c: Completion, callbackThrows: bool) returns (called: bool)
      modifies this`writesCount, this`sentBytes, this`closed
      ensures Stats() == AfterWrite(old(Stats()), c)
      ensures called <==> c.ec == Success
      ensures closed == (old(closed) || (called && callbackThrows))
    {
      called := false;
      if c.ec == Success {
        writesCount := writesCount + 1;
        sentBytes := sentBytes + c.bytes;
        called := true;
        if callbackThrows {
          Close();
        }
      }
    }
  }

  // ---------------------------------------------------- HTTP handler

  /** The HTTP handler of one connection. */
  class HttpConnection {
    /** The connection it writes to; reset once the request is done. */
    var conn: Connection?

    constructor(c: Connection)
      ensures conn == c
    {
      conn := c;
    }

    /** Ask for the bytes up to the end of the header block. */
    method HandleStart()
      requires conn != null
      modifies conn`readRequests
      ensures conn.readRequests == old(conn.readRequests) + [HeaderTerminator]
    {
      conn.DoReadUntil(HeaderTerminator);
    }

    /** Write one answer. */
    method MakeSimpleAnswer(a: Answer)
      requires conn != null
      modifies conn`writeRequests
      ensures conn.writeRequests == old(conn.writeRequests) + [Render(a)]
    {
      conn.DoWriteCb(Render(a));
    }

    /** Answer with the file the url names. */
    method SendFile(url: string, fs: FileSystem)
      requires conn != null
      modifies conn`writeRequests
      ensures conn.writeRequests == old(conn.writeRequests) + [Render(FileAnswer(url, fs))]
    {
      var loc := Location(url);
      if !fs.hasFilename(loc) {
        MakeSimpleAnswer(NoContent);
        return;
      }
      if !fs.isPresent(loc) {
        MakeSimpleAnswer(NotFound);
        return;
      }
      var content := fs.read(loc);
      if content.Some? {
        MakeSimpleAnswer(Answer(200, "OK", content.value));
      } else {
        MakeSimpleAnswer(ReadFailure);
      }
    }

    /** The line loop over the read buffer. It fails on a request line or a
        field that does not parse, answers at the first empty line, and
        otherwise stops when the bytes run out; a last accepted line without
        CRLF also stops it. */
    method ProcessRequest(data: string, fs: FileSystem) returns (ok: bool)
      requires conn != null
      modifies conn`writeRequests
      ensures ok <==> !ScanRequest(data).Rejected?
      ensures conn.writeRequests == old(conn.writeRequests) + Written(ProcessAnswer(ScanRequest(data), fs))
    {
      var pos, i, url := 0, 0, "";
      while pos != |data|
        invariant pos <= |data|
        invariant ScanLines(data, pos, i, url) == ScanRequest(data)
        invariant conn.writeRequests == old(conn.writeRequests)
        decreases |data| - pos
      {
        var found := FindCrlf(data, pos);
        ScanStep(data, pos, i, url);
        if found == pos {
          if |data| - found - |CRLF| > 0 {
            MakeSimpleAnswer(BadRequest);
          } else {
            SendFile(url, fs);
          }
          return true;
        }
        var line := data[pos..found];
        if i == 0 {
          var r := ParseRequestLine(line);
          if r.None? {
            assert AcceptLine(line, i, url).None?;
            return false;
          }
          assert AcceptLine(line, i, url) == Some(r.value.url);
          url := r.value.url;
        } else if !IsFieldLine(line) {
          assert AcceptLine(line, i, url).None?;
          return false;
        } else {
          assert AcceptLine(line, i, url) == Some(url);
        }
        if found == |data| {
          return true;
        }
        pos, i := found + |CRLF|, i + 1;
      }
      return true;
    }

    /** The read up to the header terminator completed: process it, answer
        500 if that failed, then close the connection and let go of it. */
    method HandleRead(data: string, fs: FileSystem)
      requires conn != null
      modifies conn`writeRequests, conn`closed, this`conn
      ensures old(conn).writeRequests == old(conn.writeRequests) + Written(ReadAnswer(data, fs))
      ensures old(conn).closed && conn == null
    {
      var ok := ProcessRequest(data, fs);
      if !ok {
        MakeSimpleAnswer(ParseFailure);
      }
      conn.Close();
      conn := null;
    }
  }
}
