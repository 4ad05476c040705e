# Tube: one request per connection, modelled in Dafny

Tube is a minimal Rack-style HTTP server. It runs the same per-connection logic
in two ways:

- `Tube::Connection` serves one socket per thread. A blocking loop reads the socket
  in chunks of up to 1024 bytes and feeds an incremental HTTP parser.
- `Tube::EMConnection` is driven by the EventMachine reactor. The reactor hands it
  each piece of data as the piece arrives.

In both forms, the parser's completion callback does three things:

1. It builds the request context (the Rack environment) from the parsed headers,
   URL and method.
2. It calls the application, which returns a `(status, headers, body)` triple.
3. It writes the response and closes the connection.

The response consists of:

- the status line;
- one `name: value` line per header;
- a blank line;
- the body chunks verbatim;
- then `body.close` when the body has one, and the connection's close.

The model is split into these modules:

- `Rack` (rack.dfy): header names become context keys. `CreateRackEnv` fills
  the context in place, header by header. It is proved to compute `RackEnv`,
  the fold that the properties are stated about.
- `Status` (status.dfy): the two-entry reason table, how `"#{status}"` renders an
  integer, and the status line.
- `Response` (response.dfy): the triple, the body as `Plain | Closeable`, and the
  outgoing side of a connection. The outgoing side is a `Sink` that records
  writes, the body's release and the close in one ordered event log.
  - `Transmit` does the writing part of `send_response`. It is proved to produce
    `Transmission`.
  - `Wire` gives the bytes that reach the peer.
- `HttpParser` (http_parser.dfy): the external parser, as an oracle. A `Verdict` says
  the stream either completes a request once `at` bytes have been fed, or is
  rejected once `at` bytes have been fed. The `Parser` class tracks how much has
  been fed, and `Feed` is `@parser << data`.
- `Lifecycle` (lifecycle.dfy): the phases `Reading → Responding → Closed` (or
  `Reading → Closed`). It also defines `Emitted`, which gives the events a
  connection has produced once a given number of its bytes has reached the parser.
- `Blocking` (blocking.dfy): the socket and `Tube::Connection`.
- `Evented` (evented.dfy): `Tube::EMConnection`.
- `Equivalence` (equivalence.dfy): runs one connection of each kind on the same
  stream and proves they emit the same events. The threaded one reads the stream
  from its socket. The evented one receives the stream cut into arbitrary pieces.

The two connection classes carry identical copies of `create_rack_env` and
`get_status_code_reason`. Their `send_response` methods differ in three places:

- the write call: `@socket.write` in one, `send_data` in the other;
- the chunk: `"#{chunk}"` in one, the bare `chunk` in the other (the same string
  when chunks are strings);
- the final step: `close` (`@socket.close`) in one, `close_connection_after_writing`
  in the other.

Both the write call and the final step are events on the same kind of `Sink`. So
one definition of the context, the reason table and the response writing serves
both classes, and the table cites the `Tube::Connection` copy. The
`Tube::EMConnection` copies are at tube.rb:130-140, 142-145 and 117-128.

How a connection ends, as the code does it:

- **End of stream.** On end of stream, `process` returns without calling
  `@socket.close` (tube.rb:50-55). So `Connection.Process` ends with
  `PeerFinished`, and the socket's event log holds no close.
- **Parse errors.** A parse error raised by `@parser << data` (tube.rb:54 and
  tube.rb:108) is not rescued anywhere in the code. No close is recorded for it:
  `Process` returns `ParserRaised` and `ReceiveData` returns `raised`, in both
  cases with an empty event log.
- **The phase `Closed`.** In `Lifecycle.Phase`, `Closed` means the connection
  no longer reads. Only the path through `Responding` actually closes the socket.
- **Reason for 400.** The reason table maps 400 to "Not Found", and the model
  keeps that entry as written.

## Model

| member | source | states |
|---|---|---|
| Rack.KeyChar | tube.rb:81 | a character of a header name, upcased and with `-` turned into `_`, is never `-` and never a lower-case letter |
| Rack.KeyCharCollision | tube.rb:81 | two characters normalise alike exactly when they are equal up to ASCII case or both are among `-` and `_` |
| Rack.HeaderKey | tube.rb:81 | a header's context key is `HTTP_` followed by one character per character of the name, contains no `-`, and has no lower-case letter after the prefix |
| Rack.HeaderKeyCollision | tube.rb:81 | two header names share a context key if and only if they have the same length and are spelled alike character by character (case, `-` versus `_`) |
| Rack.HeaderEnv | tube.rb:80-83 | every key the header loop inserts starts with `HTTP_` |
| Rack.HeaderEnvKeys | tube.rb:80-83 | a key is in the header part of the context if and only if some header normalises to it |
| Rack.HeaderEnvLast | tube.rb:80-83 | the value under a key is the value of the last header that normalises to it |
| Rack.RackEnv | tube.rb:78-88 | the context's keys are the header keys plus `PATH_INFO`, `REQUEST_METHOD` and `rack.input`; those three carry the URL, the method and the empty input whatever the headers are, since no header key can collide with them; every header entry is kept |
| Rack.LaterHeaderWins | tube.rb:80-83 | in the full context, a header's key maps to its value when no later header has the same key, so of colliding headers the later one wins |
| Rack.CreateRackEnv | tube.rb:78-88 | the in-place loop builds exactly the context `RackEnv` describes |
| Status.NatDigits | tube.rb:69 | the rendering of a non-negative code is a non-empty run of decimal digits with no leading zero |
| Status.NatDigitsRoundTrip | tube.rb:69 | reading the digits back gives the number |
| Status.DecimalString | tube.rb:69 | `Integer#to_s` of the status is non-empty and contains no space |
| Status.DecimalRoundTrip | tube.rb:69 | reading the rendered status back as an integer gives the status, negative ones included |
| Status.Reason | tube.rb:90-93 | the table has an entry exactly for 200 and 400, and each entry is a non-empty phrase; every other code finds nothing |
| Status.ReasonText | tube.rb:69 | the interpolated reason is empty exactly when the table has no entry, and is the table's phrase otherwise |
| Status.StatusLine | tube.rb:67-69 | the status line starts with `HTTP/1.1 ` and ends with CRLF |
| Status.StatusLineRoundTrip | tube.rb:67-69 | a client that reads the token after the version gets back exactly the status the application returned, for every integer status |
| Status.UnknownStatusLine | tube.rb:67-69 | for a code without an entry the line is `HTTP/1.1 <code> ` then CRLF: an empty reason after a trailing space |
| Status.KnownStatusLines | tube.rb:67-69 | the lines for 200 and 400 are `HTTP/1.1 200 OK` and `HTTP/1.1 400 Not Found`, each with CRLF |
| Response.HeaderLine | tube.rb:70 | a header line is the name, `": "`, the value and CRLF, in that order, each recoverable by its position |
| Response.HeaderLineRoundTrip | tube.rb:70 | a client splitting a header line at its first colon gets back the name and value, for any name without a colon |
| Response.HeaderLines | tube.rb:70 | one header line per header, in the headers' iteration order: line i is header i's `name: value` line with CRLF |
| Response.Writes | tube.rb:69-72 | `send_response` makes exactly 2 + number of headers + number of chunks write calls |
| Response.ResponseEventOrder | tube.rb:69-75 | a response is first exactly 2 + headers + chunks writes, then the body's release if and only if the body is closeable (so only after every chunk), then the close, last and only once |
| Response.WireOfResponse | tube.rb:69-72 | the bytes on the wire are the head followed by the chunks verbatim; the head starts with `HTTP/1.1 ` and ends in CRLF CRLF, so the header block is terminated before any body byte |
| Response.OneHeaderOneChunk | tube.rb:69-72 | with one header and one chunk, the wire holds status line, header line, blank line and chunk, in that order |
| Response.ExampleResponse | tube.rb:69-72 | status 200, header `Content-Type: text/plain` and body `hello` put exactly `HTTP/1.1 200 OK\r\nContent-Type: text/plain\r\n\r\nhello` on the wire |
| Response.Sink.Send | tube.rb:69 | a write appends one write event; it is not allowed on a closed connection |
| Response.Sink.ReleaseBody | tube.rb:74 | `body.close` appends the release event |
| Response.Sink.Close | tube.rb:96 | closing appends the close event once; closing again changes nothing |
| Response.SendHeaderLines | tube.rb:70 | the header loop writes the header lines in order and nothing else |
| Response.SendChunks | tube.rb:72 | the body loop writes each chunk verbatim, in order |
| Response.Transmit | tube.rb:64-74 | the write part of `send_response` appends exactly `Transmission`: status line, header lines, blank line, chunks, and then the release if the body is closeable; it leaves the connection open |
| HttpParser.Step | tube.rb:54 | feeding adds the bytes to the count, keeps the parser consistent with its verdict, and fires the completion callback exactly on the feed that completes the message |
| HttpParser.FeedAllIgnoresBoundaries | tube.rb:54 | a consistency check of the parser oracle: however the stream is cut into feeds, the oracle's state ends where the whole stream takes it (the fact about Tube's own code is `Equivalence.Deliver`) |
| HttpParser.CompletionSignalledOnce | tube.rb:54 | a consistency check of the parser oracle: over any cutting of the stream, the oracle signals completion exactly once if the stream holds a whole message and never otherwise |
| HttpParser.Parser.constructor | tube.rb:45 | a new parser has been fed nothing and is still parsing |
| HttpParser.Parser.Feed | tube.rb:54 | `@parser << data` moves the parser by exactly one `Step` and returns its signal |
| HttpParser.Parser.ParsedRequest | tube.rb:80-85 | headers, URL and method are available once the message is complete, and they are the request of the verdict |
| Lifecycle.RunShapes | tube.rb:49-61 | a run of phases is one of `Reading`, `Reading Responding`, `Reading Closed` or `Reading Responding Closed`; a connection never reads again and responds at most once |
| Lifecycle.Emitted | tube.rb:58-61 | a connection has emitted something if and only if its parser has completed the message, and then it is exactly the response to that request |
| Evented.HistoryFor | tube.rb:107-115 | each parser position corresponds to a legal run of phases |
| Blocking.Socket.ReadPartial | tube.rb:51 | `readpartial(1024)` takes between one and 1024 bytes from the front of what has arrived |
| Blocking.Connection.constructor | tube.rb:43-47 | a new connection has a fresh parser that has been fed nothing, and an empty event log |
| Blocking.Connection.Process | tube.rb:49-56 | after the read loop, the socket carries exactly the response to the request if the stream holds a whole one, and nothing otherwise; the `until closed? or eof?` loop (tube.rb:50) ends with the socket closed exactly when the response was sent, and ends at end of stream only once every byte of the stream has reached the parser; the phases are `Reading Responding Closed` after a response and `Reading Closed` otherwise, where `Closed` means only that reading has stopped |
| Blocking.Connection.OnMessageComplete | tube.rb:58-62 | completion builds the context from the parsed request and writes exactly that request's response, then closes |
| Blocking.Connection.SendResponse | tube.rb:64-76 | the socket receives the whole response to the application's triple, ending with the close |
| Blocking.Connection.Close | tube.rb:95-97 | `@socket.close` appends the close unless the socket is already closed |
| Evented.EMConnection.constructor | tube.rb:103-105 | `post_init` creates a parser that has been fed nothing, and nothing has been sent |
| Evented.EMConnection.ReceiveData | tube.rb:107-109 | each delivery feeds its bytes to the parser and keeps the reactor's queue equal to what the bytes so far call for; it raises exactly when the parser has rejected the stream |
| Evented.EMConnection.OnMessageComplete | tube.rb:111-115 | completion queues exactly the response to the parsed request, then the close |
| Evented.EMConnection.SendResponse | tube.rb:117-128 | `send_data` queues the whole response in order, ending with `close_connection_after_writing` |
| Equivalence.Deliver | tube.rb:107-109 | however the reactor cuts the stream into pieces, the connection ends up having queued what the whole stream calls for |
| Equivalence.ServeBoth | tube.rb:24-40 | the threaded connection and the reactor-driven one emit the same events for the same stream, and those events are the response if and only if the stream holds a complete request |

## Left out

- Listening, `accept`, one thread per connection, `prefork` with `fork` and
  `Process.waitall` (tube.rb:8-32) are not modelled. They are process and thread
  plumbing, and each connection is modelled on its own.
- The EventMachine reactor and `start_server` (tube.rb:34-40) are not modelled.
  `close_connection_after_writing` is an event recorded after the queued writes;
  when the reactor actually flushes and closes is not modelled.
- `Http::Parser` internals are an external library. Its judgement of a stream is
  the `Verdict` oracle. The model does not check the request's bytes, and the
  parser's merging of repeated header names is not part of this model: the headers
  are taken as the parser reports them.
- A second message in the same stream (pipelining) is not modelled. The oracle
  completes at most one message. Tube does not support pipelining either: in
  `Tube::Connection` a second completion would write on a socket that
  `@socket.close` has already closed; in `Tube::EMConnection` it would queue
  more `send_data` after `close_connection_after_writing`, which only schedules
  the close.
- `Builder.parse_file` (tube.rb:148-164) reads and evaluates a config file. It is
  I/O and Ruby evaluation, so it is not modelled.
- The `puts` logging (tube.rb:17, 52-53, 166) is left out because it is output
  only.
- `StringIO.new` for `rack.input` is the opaque `EmptyInput` value.
- A parse error escaping `receive_data` (tube.rb:108) is not rescued, so it
  leaves `EventMachine.run` (tube.rb:35) and ends `start_em` and the server
  process together with every open connection. The model only records that
  `ReceiveData` raised. Stopping the reactor and the other connections is not
  modelled.
- The application is an arbitrary function from the context to a triple. An
  application that raises, or returns something that is not a triple, is not
  modelled.
- Blocking.Socket.ReadPartial: the peer's whole stream is known when the socket is
  created. Blocking reads, and a transport error during a read or write, are not
  modelled.
- Rack.KeyChar: upcases ASCII letters only. Ruby's `upcase` also maps non-ASCII
  letters, but HTTP header names are ASCII tokens.
- Status.Reason: the status is an integer. A status the application returns as a
  string, for example `"200"`, would miss the table and get an empty reason. That
  case is not modelled.
- Response bodies are sequences of strings. `"#{chunk}"` in the blocking
  connection and the bare `chunk` in the evented one are therefore the same.
  Bodies that yield non-strings are not modelled.
