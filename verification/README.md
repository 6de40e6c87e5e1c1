# A verified model of a minimal HTTP/1.0 file server

The server accepts TCP connections on a set of addresses. For each connection it:

1. reads until the header terminator (CRLF CRLF);
2. splits the request line on its first two spaces;
3. checks every later line against a field pattern;
4. writes at most one answer;
5. closes the connection once the read has been handled.

Not every connection gets an answer, and not every one is closed:

- A read that fails (end of stream, cancellation or any other error) gets no answer, and the connection does not close it.
- A buffer whose bytes run out after a CRLF, before any empty line, gets no answer; the connection is still closed.
- A handler that throws makes the connection close without an answer.

The answer is one of these:

- the requested file (200);
- 204 when the path names no file;
- 404 when the file is missing;
- 500 when the file cannot be opened;
- 400 when bytes follow the empty line;
- 500 "Whaat?" when the request line or a field does not parse.

A supervisor registers the listeners and answers stop signals in two phases. It also turns the outcome of a run into the exit code.

The project has five modules:

- `Text` (text.dfy): CRLF and character search, as `std::search` and `find_first_of` do it; decimal rendering of an unsigned integer, with its inverse.
- `HttpRequest` (http_request.dfy): request-line splitting (`parse_request`). The header field pattern `([^:\s]+)\s*:\s*(.*)`, both as a declarative split of the line and as a left-to-right recogniser, proved equal. The line loop of `process_request`, as a function from the read buffer to a verdict.
- `HttpResponse` (http_response.dfy):
  - the bytes `make_simple_answer` writes, and a reader that takes them apart, with the round trip proved;
  - the url stripping of `send_file`, and its four-way choice of answer.
- `Session` (session.dfy): the `connection` and `http_connection` classes.
  - Socket completions arrive as arguments: an error kind and a byte count.
  - The socket is reduced to a `closed` flag and the lists of reads and writes issued on it.
  - The statistics counters have a specification as a fold over completions.
  - Lemmas tie a whole request to the bytes written for it.
- `Supervisor` (supervisor.dfy): listeners, and `core`'s `stop`, `run` and `operator()`.
  - `Stop` is proved against a function on values (`StopStep`).
  - The properties of `stop` are proved about `StopStep`.

Quirks of the code the model keeps:

- `parse_request` starts the version field right after the *first* space. So the version holds the url as well, and nothing checks that the request line ends in "HTTP/" and a version.
- In `send_file`, `?` wins over `#` wherever each sits.
- An empty first line is taken as the end of the headers, before any request line is parsed.
- A request line that does not parse makes `handle_read` write a 500 "Whaat?" answer before it closes the connection (src/http/http_connection.cpp:255-259).
- `handle_read` closes the connection right after it issues the write, and not when the write completes. `http_connection::handle_write` is empty.

One Dafny `char` stands for one byte of the read buffer and of the answer. Content-Length equals `|body|` as a byte count under this reading.

The four statistics getters and `remote_endpoint()` are plain reads of one field each (`Session.Connection.BytesSent` … `RemoteEndpoint`). They carry no contract beyond their reads frame.

## Model

| member | source | states |
|---|---|---|
| Text.FindCrlf | src/http/http_connection.cpp:167-170 | the CRLF search of the line loop finds the first CRLF at or after the start, or the end of the buffer when there is none |
| Text.FindChar | src/http/http_connection.cpp:36-43 | the one-character search finds the first occurrence at or after the start, or the end when there is none |
| Text.Decimal | src/http/http_connection.cpp:132-134 | the text of an unsigned integer on a stream is a non-empty run of digits without a leading zero |
| Text.DecimalRoundTrip | src/http/http_connection.cpp:134 | reading the digits back gives the number written, so Content-Length carries the exact body size |
| HttpRequest.ParseRequestLine | src/http/http_connection.cpp:20-57 | definition only: the split on the first space and the next one; its properties are ParseRequestLineAccepts and ParseRequestLineShape |
| HttpRequest.ParseRequestLineAccepts | src/http/http_connection.cpp:36-50 | the request line is accepted exactly when it has a space and a later second space |
| HttpRequest.ParseRequestLineShape | src/http/http_connection.cpp:47-56 | the method is the text before the first space and the url the text between the first two spaces, both free of spaces; the version is everything after the first space, so it starts with the url and a space |
| HttpRequest.FieldFrom | src/http/http_connection.cpp:206-208 | definition only: a left-to-right recogniser of the field pattern, one character and one state at a time |
| HttpRequest.IsFieldLine | src/http/http_connection.cpp:206-208 | definition only: the regex_match on a header line; FieldLineIsPattern proves it equal to the pattern |
| HttpRequest.FieldLineIsPattern | src/http/http_connection.cpp:206-208 | the recogniser accepts a line exactly when it splits into a non-empty name without ':' or white space, optional white space, ':', optional white space, and a value without CR or LF |
| HttpRequest.ScanLines | src/http/http_connection.cpp:168-170 | definition only: the loop test and the CRLF search from one line on; the buffer's end gives Exhausted |
| HttpRequest.ScanLine | src/http/http_connection.cpp:178-221 | definition only: one pass of the loop body over one line, the empty-line test first |
| HttpRequest.AcceptLine | src/http/http_connection.cpp:192-216 | definition only: the first line must parse as a request line and gives the url; every later one must match the field pattern |
| HttpRequest.ScanRequest | src/http/http_connection.cpp:154-225 | definition only: the verdict of the whole loop over a read buffer; its properties are the lemmas below and Session.HttpConnection.ProcessRequest |
| HttpRequest.ScanEmptyLine | src/http/http_connection.cpp:176-190 | an empty line ends the loop: the file is served when the buffer ends with its CRLF, and 400 is answered otherwise |
| HttpRequest.LeadingEmptyLine | src/http/http_connection.cpp:176-193 | a buffer that starts with CRLF serves url "" when nothing follows, and answers 400 otherwise; no request line is parsed |
| HttpRequest.TerminatedRequestStops | src/http/http_connection.cpp:168-221 | a buffer holding CRLF CRLF (what handle_start reads up to) always ends at an empty line or a parse failure, never by running out of bytes or stepping past the end |
| HttpRequest.ScanFields | src/http/http_connection.cpp:205-221 | a run of well-formed field lines, each ending in CRLF and followed by the empty line, is passed over up to that empty line |
| HttpRequest.WellFormedRequestIsServed | src/http/http_connection.cpp:168-221 | an accepted request line, well-formed fields and the empty line serve the request line's url, or answer 400 when bytes follow |
| HttpRequest.MalformedRequestLineIsRejected | src/http/http_connection.cpp:193-203 | a non-empty first line without two spaces makes the loop fail, whatever follows |
| HttpRequest.MalformedFieldIsRejected | src/http/http_connection.cpp:205-216 | after an accepted request line and any number of well-formed header lines, a header line that does not match the field pattern makes the loop fail, whatever follows |
| HttpRequest.FieldsThenBadField | src/http/http_connection.cpp:205-221 | from the first header line on, well-formed field lines are passed over and the first bad one ends the loop with a failure |
| HttpResponse.StatusLine | src/http/http_connection.cpp:132 | definition only: "HTTP/1.0 ", the code in decimal, a space, the reason and CRLF |
| HttpResponse.Fields | src/http/http_connection.cpp:133-141 | definition only: only CRLF for an empty body, else the length and type fields, the empty line and the body |
| HttpResponse.Render | src/http/http_connection.cpp:131-141 | definition only: the status line, the Connection field and Fields; its properties are RenderRoundTrip and RenderInjective |
| HttpResponse.StatusLineRoundTrip | src/http/http_connection.cpp:132 | the status line reads back as its code and reason when the reason holds no CRLF |
| HttpResponse.FieldsRoundTrip | src/http/http_connection.cpp:132-141 | after the Connection field: for an empty body only the empty line, which reads back as no body; otherwise Content-Length, Content-Type and the body, which reads back as that body, its length checked |
| HttpResponse.SizedBodyRoundTrip | src/http/http_connection.cpp:134-137 | a non-empty body after Content-Length and Content-Type reads back as that body, the length checked against the digits |
| HttpResponse.RenderRoundTrip | src/http/http_connection.cpp:131-141 | reading back the bytes written for an answer gives its code, reason and body; the body is the exact tail and Content-Length its exact length |
| HttpResponse.RenderInjective | src/http/http_connection.cpp:131-141 | two different answers are never written as the same bytes |
| HttpResponse.StripQuery | src/http/http_connection.cpp:64-74 | the kept part of the url is a prefix of it |
| HttpResponse.StripQueryCuts | src/http/http_connection.cpp:64-74 | the url is cut at the first '?' when it has one, else at the first '#', else not at all; the kept part holds no such mark |
| HttpResponse.Location | src/http/http_connection.cpp:64-78 | definition only: the stripped url, with exactly "/" standing for "/index.html"; RootQueryIsIndex and QueryBeatsEarlierFragment are instances |
| HttpResponse.RootQueryIsIndex | src/http/http_connection.cpp:64-78 | "/?x" is served as "/index.html" |
| HttpResponse.QueryBeatsEarlierFragment | src/http/http_connection.cpp:64-74 | "/a#b?c" is looked up as "/a#b": the '?' wins over an earlier '#' |
| HttpResponse.FileAnswer | src/http/http_connection.cpp:87-121 | exactly one answer: 204 when the path names no file; 404 when it does not exist; 200 "OK" with the file's bytes unchanged when it opens; 500 "Whoops!" when it does not open |
| Session.AfterRead | src/connection.cpp:139-144 | definition only: a successful read adds one to the read count and its bytes to the received count; any error changes nothing |
| Session.AfterWrite | src/connection.cpp:175-180 | definition only: a successful write adds one to the write count and its bytes to the sent count; an error changes nothing |
| Session.ReadCounters | src/connection.cpp:139-144 | after any run of read completions the read counter grew by the number of successes and the received counter by the sum of their sizes; the write counters did not move |
| Session.WriteCounters | src/connection.cpp:175-180 | after any run of write completions the write counter grew by the number of successes and the sent counter by the sum of their sizes; the read counters did not move |
| Session.ProcessAnswer | src/http/http_connection.cpp:176-190 | definition only: the file's answer for an empty line at the end, 400 for an empty line with bytes after it, nothing otherwise |
| Session.ReadAnswer | src/http/http_connection.cpp:255-259 | definition only: process_request's answer, or 500 "Whaat?" when it failed |
| Session.TerminatedReadIsAnswered | src/http/http_connection.cpp:227-261 | a buffer read up to CRLF CRLF always gets exactly one answer written |
| Session.WellFormedRequestGetsFile | src/http/http_connection.cpp:107-116 | a well-formed request for a file that exists and opens is answered 200 "OK" with the file's bytes, and reading the written bytes back gives that answer |
| Session.MalformedRequestGetsParseFailure | src/http/http_connection.cpp:254-259 | a request line that does not parse is answered 500 "Internal Error" / "Whaat?" |
| Session.BodyAfterHeadersGetsBadRequest | src/http/http_connection.cpp:178-185 | bytes after the empty line of a well-formed request get 400 "Bad Request" |
| Session.Connection.BytesSent | src/connection.hpp:71 | plain read of one field: the sent-bytes counter |
| Session.Connection.BytesReceived | src/connection.hpp:72 | plain read of one field: the received-bytes counter |
| Session.Connection.CountReads | src/connection.hpp:73 | plain read of one field: the read counter |
| Session.Connection.CountWrites | src/connection.hpp:74 | plain read of one field: the write counter |
| Session.Connection.RemoteEndpoint | src/connection.hpp:75-76 | plain read of one field: the endpoint cached when the connection was accepted; the socket is not asked again |
| Session.Connection.constructor | src/connection.cpp:20-32 | a new connection has all four counters at zero, no handler, an unspecified endpoint, and nothing read or written |
| Session.Connection.Create | src/connection.hpp:38-43 | the created connection's self reference is the connection itself |
| Session.Connection.OnConnection | src/connection.cpp:39-54 | the peer endpoint is cached; a new handler bound to this connection is remembered; one read up to CRLF CRLF is issued; the counters are untouched. When asking the socket for the peer throws, nothing is cached, no handler is made and no read is issued |
| Session.Connection.DoReadUntil | src/connection.cpp:87-96 | one read up to the delimiter is issued |
| Session.Connection.DoWriteCb | src/connection.cpp:121-131 | the buffer is queued for writing, after the earlier writes |
| Session.Connection.Close | src/connection.cpp:225-233 | the socket is closed |
| Session.Connection.HandleRead | src/connection.cpp:133-167 | the counters follow AfterRead. The handler runs exactly when the read succeeded; then either its answer is written and the connection closed, or, if it threw, the connection is closed. On eof, abort or any other error nothing else changes |
| Session.Connection.HandleWrite | src/connection.cpp:169-195 | the counters follow AfterWrite; the connection is closed only when a successful write's handler throws |
| Session.Connection.HandleWriteCb | src/connection.cpp:197-223 | the counters follow AfterWrite; the callback runs only on success, and it closes the connection only if it throws |
| Session.HttpConnection.constructor | src/http/http_connection.cpp:13-18 | the handler is bound to the connection it was made for |
| Session.HttpConnection.HandleStart | src/http/http_connection.cpp:227-230 | one read up to CRLF CRLF is issued |
| Session.HttpConnection.MakeSimpleAnswer | src/http/http_connection.cpp:124-145 | exactly the rendered answer is written |
| Session.HttpConnection.SendFile | src/http/http_connection.cpp:59-122 | exactly one write, of FileAnswer for the url |
| Session.HttpConnection.ProcessRequest | src/http/http_connection.cpp:154-225 | fails exactly when the scan verdict is a parse failure; writes 400 or the file's answer at the empty line, and nothing otherwise |
| Session.HttpConnection.HandleRead | src/http/http_connection.cpp:232-261 | writes process_request's answer, or 500 "Whaat?" if it failed, then closes the connection and drops it |
| Supervisor.Listener.constructor | src/core.cpp:145-146 | a new listener holds its address and port, is alive and is neither accepting nor cancelled |
| Supervisor.Listener.StartAccept | src/core.cpp:148 | the listener accepts |
| Supervisor.Listener.Cancel | src/core.cpp:113 | the listener is cancelled |
| Supervisor.CancelAlive | src/core.cpp:110-115 | every live listener is cancelled, the gone ones are skipped, and the list keeps its length and order |
| Supervisor.StopStep | src/core.cpp:95-125 | definition only: one stop on values; its properties are StopPhases and StopsSettle, and Core.Stop is proved against it |
| Supervisor.StopPhases | src/core.cpp:95-125 | the first stop marks the shutdown, cancels exactly the live listeners and leaves the io_service running; a later stop cancels nothing and stops the io_service if there is one |
| Supervisor.StopsSettle | src/core.cpp:95-105 | after two stop signals, further ones change nothing |
| Supervisor.FirstRefused | src/core.cpp:140-156 | the index of the first bind address that cannot be bound, every address before it being bindable |
| Supervisor.Core.constructor | src/core.cpp:44-51 | a new core is not shutting down and has no io_service and no listeners |
| Supervisor.Core.Stop | src/core.cpp:88-126 | always returns true, leaves the listener list as it was, and changes the state exactly as StopStep says |
| Supervisor.Core.Run | src/core.cpp:128-156 | creates a new io_service, not yet stopped, and appends one fresh, accepting listener per bind address, in order, up to the first address that cannot be bound; fails exactly when there is one; the earlier listeners stay |
| Supervisor.Core.Execute | src/core.cpp:60-86 | the exit code is 1 exactly when logging setup or run failed, else 0; the listeners run registered before a failing address stay in the list; the new state is the state after run, passed once through StopStep in the failure case and unchanged otherwise, so a failure on a first stop cancels every live listener, including the ones run registered, and leaves the io_service running |

## Left out

- Strand, io_service and thread pool: `post_in_strand`, `dispatch_in_strand`, and the worker threads and `io_service::run` in `core::run`. Their point is concurrency, which a sequential model cannot check. The io_service is reduced to two flags: it exists, and it was stopped.
- Other read and write entry points: `do_read_some`, `do_read_at_least` and `do_write` issue operations the HTTP handler never uses in the default build.
- Actual socket I/O:
  - Completions are arguments.
  - `close()` sets a flag. It swallows a shutdown error (src/connection.cpp:230-231).
  - `close()` can throw from `socket_.close()` (src/connection.cpp:232), and this throw is not modelled. In the source it would leave `http_connection::handle_read` before `conn_.reset()`. It would then reach the catch in `connection::handle_read`, which calls `close()` again.
  - The data a read delivers is an argument, separate from its byte count. The buffer can hold more than the completion reports.
- Filesystem: joining the location onto the web root, `has_filename`, `exists` and reading the file are three functions of the location, in `HttpResponse.FileSystem`. A `boost::filesystem` error thrown by `exists` is not modelled.
- Object lifetimes: `shared_ptr` and `weak_ptr` are plain references.
  - That the connection holds its handler only weakly is stated, not checked.
  - A listener that has gone away is a listener whose `alive` flag is false.
- Logging: every log statement, `init_logging`'s sink setup and the flushes. A failing `init_logging` is an argument to `Execute`.
- Program-options parsing and daemonisation (src/main.cpp) are not part of this model.
- `tcp_server` is not part of this model. A listener is a record with address, port and `alive`, `accepting` and `cancelled` flags. Construction failing is an address in the `refused` set, a fixed set of addresses. So a bind that fails only because of an earlier bind, such as the same address listed twice, is not expressed.
- Compiled-out branches: `ENABLE_SEGMENTED_TRANSFER` (unfinished) and `ENABLE_HTTP_11_SUPPORT` (keep-alive).
- Session.Connection.HandleRead: the counters are unbounded naturals, so the 64-bit wrap-around of the counters is not modelled. A handler exception is modelled as thrown before the handler writes or closes anything; an exception thrown partway through is not.
- Session.Connection.HandleWrite: the counters are unbounded, so 64-bit wrap-around is not modelled.
- Session.Connection.HandleWriteCb: the counters are unbounded, so 64-bit wrap-around is not modelled.
- Session.HttpConnection.ProcessRequest: the update of the caller's iterator (`first = iter`) is left out, because the default build never uses it. When the last accepted line has no CRLF, the source steps its iterator past the end, which is undefined behaviour. The model stops there, with no answer, and returns true (`HttpRequest.Overrun`). `HttpRequest.TerminatedRequestStops` shows this cannot happen for a buffer read up to CRLF CRLF.
- HttpResponse.RenderRoundTrip: holds only for a reason phrase without CRLF. Every reason the server uses has none.
- Supervisor.Core.Execute: a failing `run()` is modelled as a failed bind only. Other exceptions, such as a missing program option, are not modelled. The blocking `io_service::run` is taken to return normally.
