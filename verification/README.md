# A model of cubrid-rs

cubrid-rs is a CUBRID client: it speaks the CAS wire protocol over a framed byte stream, runs queries through a
server-side cursor, fills parameters into SQL text on the client side, and keeps clients in a pool. This project states
what those parts promise and proves it.

How the files follow the repository:

- `Bytes`, `Utf8`, `Text`, `Wrappers`, `Types`: integers on the wire, UTF-8 (section 3 of RFC 3629), decimal and
  hexadecimal text, the protocol's types and values. Floats are their bit patterns, `usize` has 64 bits.
- `Codec` (`codec.rs`, reader), `Rows` and `Response` (`response.rs`): the parsers. A specification reads a value from
  the unread bytes and says what is still unread; every parser method is proved equal to it, cursor included.
  `Replies` is the encoding of server replies, which the repository does not have: the parsers are its inverse.
  `Prefixes` is about rows followed by other bytes or cut short, `Malformed` about arbitrary bytes, `Layouts` about
  literal ones: type codes, cells, versions and whole packets, byte by byte.
- `Writer` (`codec.rs`, writer and framing), `Request` (`request.rs`), `Handshake` (`handshake.rs`): requests, the
  argument grammar they share, and bind parameters. `BindLists` says which parameter lists the row parser reads back.
- `Link` (`conn.rs`): one connection, over a stream whose every operation may fail and lose bytes. `Frames` says what is
  in the bytes of every request. `Session` says what each client operation does to the connection; `Clients` has the
  objects, proved equal to `Session`. `Calls` reads what each call sends and answers from the history it leaves;
  `Completeness`, `Cursor`, `Tokens` and `Handles` are the theorems about single queries and about whole runs (`Runs`).
- `Interpolation` (`interpolate_params`, `format_value`), with a reader of SQL string literals (section 5.3 of
  ISO/IEC 9075-2) as the independent judge, and `SqlReader`, which reads any formatted value back.
- `Pool` and `AsyncPool` (`cubrid-pool`): the lock-held sections as atomic steps of any number of threads.
- `Dsn`, `DsnTexts` and `Percent` (`dsn.rs`): the connection-string parser, the parts of every text and which of them is
  refused, and percent-decoding (section 2.1 of RFC 3986).

A Rust panic is the third outcome of a call (`Crash`, or `Panic` of a parser). Integer overflow is taken as a panic,
as in builds with overflow checks.

## What fails, and exactly when

Each of these has its condition for all inputs and an input that fails.

- A parser panics if and only if a column or result count on the wire is negative (`Malformed.PreparePanics`,
  `ExecutePanics`, `PrepareAndExecutePanics`; packets in `ColumnCountPanics` and `ResultCountPanics`).
- A bound `Time` or `Timestamp` takes fourteen bytes of which the reader takes six or twelve. A parameter list is read
  back, in canonical form and exactly, if and only if it has neither (`BindLists.BindListExact`; `Request.TimeIsLost`
  and `TimestampLeavesBytes` say what is read instead).
- Interpolation joins literals when quotes meet at a seam: `Interpolation.InterpolationReads` says exactly when for
  given values, `TemplateExact` for a template and all values, `TouchingTemplateFails` is an instance.
- A handle that the header of a reply names stays open on the server if and only if the rest of the reply is refused
  by the parser (`execute`, `query` and `prepare`), or `query` has rows of a SELECT missing and a fetch is not answered
  by a batch (`Handles.HandleStaysOpen`, `PrepareHolds`; `RefusedHandleLost`, `HandleLost`, `Example.HandleSevenRefused`
  and `HandleSevenLost`). "Closed" means that the close request was made: that it is sent in full, and what the server
  answers, is ignored by the client and counts for nothing here.
- A server that announces negative numbers of rows throws the cursor loop back. `Cursor.FetchBound` has the bound on
  requests for all servers, and `FetchTracks` says exactly when requests ask for the right rows; `SetbacksStall` and
  `Example.BackAndForthFails` show the missing rows exceeded, a request for position 0, and a row too many returned.
- The async pool gives up a slot for every handle dropped with a closed client and every cancelled `get`
  (`AsyncPool.AsyncBound`; `OneLeakEmptiesThePool`); the sync pool never does.
- Percent-decoding undoes percent-encoding exactly on ASCII texts (`Percent.PercentRoundTrip`; `AccentLost`).
- The open-database request cuts names longer than 32 bytes without notice (`Handshake.OpenRequestReads`;
  `LongNamesCollide`).

## Model

| member | source | states |
|---|---|---|
| Utf8.DecodeOfEncode | crates/cubrid-protocol/src/codec.rs:338-349 | every string survives being sent as bytes and read with the UTF-8 check |
| Utf8.EncodeOfDecode | crates/cubrid-protocol/src/codec.rs:338-349 | the check accepts nothing but encodings |
| Utf8.StripCommutes | crates/cubrid-protocol/src/codec.rs:338-349 | stripping NUL bytes before the check is stripping NUL characters after it |
| Types.DataTypeOf | crates/cubrid-protocol/src/constants.rs:162-191 | the type codes: each known byte gives the type with that code, and an unknown byte is no type's code |
| Types.StatementBytes | crates/cubrid-protocol/src/constants.rs:287-327 | a statement byte is a SELECT if and only if it is 21, and a call if and only if it is 24 or 0x7E; the known bytes are told apart, and the others are one type |
| Types.DataTypeBytes | crates/cubrid-protocol/src/constants.rs:162-191 | which bytes are textual types, raw types and no types |
| Bytes.BigEndianBytes | crates/cubrid-protocol/src/codec.rs:276-294 | what two and four bytes stand for, unsigned and in two's complement, the most significant byte first |
| Codec.PacketReader.ParseRawBytes | crates/cubrid-protocol/src/codec.rs:328-334 | takes the next bytes, or reports how many are missing and moves nothing; the cursor stays in range |
| Codec.PacketReader.ParseInt | crates/cubrid-protocol/src/codec.rs:284-294 | the next four bytes in two's complement |
| Codec.PacketReader.ParseNullTermString | crates/cubrid-protocol/src/codec.rs:338-349 | trailing NULs go before the UTF-8 check, for any length including those made from negative ones |
| Codec.PacketReader.ReadErrorReply | crates/cubrid-protocol/src/codec.rs:368-378 | an error code and the rest of the packet as text |
| Codec.PacketReader.ParseDatetime | crates/cubrid-protocol/src/codec.rs:409-419 | seven shorts in order |
| Rows.ParseValue | crates/cubrid-protocol/src/response.rs:124-209 | every column type is read as the specification says, with the fixed-width types ignoring the declared size |
| Rows.ParseCell | crates/cubrid-protocol/src/response.rs:239-265 | the loop body: NULL cells, type-tagged cells of CALL rows and NULL-typed columns, unknown tags |
| Rows.ParseRowData | crates/cubrid-protocol/src/response.rs:224-270 | the nested loops read exactly the rows the specification reads, cursor and errors included |
| Rows.ValueInverts | crates/cubrid-protocol/src/response.rs:124-209 | each typed value is read back from its encoding, whatever follows |
| Rows.CellInverts | crates/cubrid-protocol/src/response.rs:239-265 | each cell form is read back from its encoding, whatever follows |
| Rows.RowsInvert | crates/cubrid-protocol/src/response.rs:224-270 | parsing encoded rows gives the rows and stops exactly at their end |
| Layouts.CellLayout | crates/cubrid-protocol/src/response.rs:239-265 | where the size, the optional type byte and the value of a cell are, for every size and column type byte |
| Layouts.TextAndRawLayout | crates/cubrid-protocol/src/response.rs:124-209 | the type bytes read as text and as raw bytes, unknown ones included |
| Layouts.IntegerLayout | crates/cubrid-protocol/src/response.rs:143-154 | byte 9 reads 16 bits, 8 reads 32, 21 reads 64, and 0 is NULL |
| Layouts.FloatLayout | crates/cubrid-protocol/src/response.rs:155-162 | byte 11 reads a single, 10 and 12 a double |
| Layouts.ClockLayout | crates/cubrid-protocol/src/response.rs:163-197 | bytes 13, 14, 15 and 22 read dates and times from two bytes a field, in this order |
| Layouts.ColumnTypeLayout | crates/cubrid-protocol/src/response.rs:42-49 | a column type is one byte, or a second one after a byte from 0x80; unknown ones are refused by their number |
| Prefixes.RowsExtend | crates/cubrid-protocol/src/response.rs:224-270 | bytes after what row parsing consumed change nothing |
| Prefixes.RowsTruncated | crates/cubrid-protocol/src/response.rs:224-270 | cutting off any part of what row parsing consumed gives an unexpected end |
| Prefixes.EncodedRowsTruncated | crates/cubrid-protocol/src/codec.rs:251-260 | every strict prefix of encoded rows gives an unexpected end: the encoding is prefix-free |
| Response.ParseColumnMetadata | crates/cubrid-protocol/src/response.rs:36-88 | the column loop, both type forms, and the panic on a negative count |
| Response.ParseResultInfos | crates/cubrid-protocol/src/response.rs:100-119 | the result-info loop and the panic on a negative count |
| Response.ParsePrepareAndExecute | crates/cubrid-protocol/src/response.rs:279-337 | FC=41 replies, as specified field by field, for every protocol version |
| Response.ParsePrepare | crates/cubrid-protocol/src/response.rs:340-368 | FC=2 replies |
| Response.ParseExecute | crates/cubrid-protocol/src/response.rs:371-418 | FC=3 replies, which skip rows when there are no columns |
| Response.ParseFetch | crates/cubrid-protocol/src/response.rs:421-442 | FC=8 replies |
| Response.ParseSimpleResponse | crates/cubrid-client/src/lib.rs:638-652 | replies with only a token and a code |
| Response.ParseGetDbVersion | crates/cubrid-protocol/src/handshake.rs:143-161 | the version text is all that remains |
| Replies.ColumnsInvert | crates/cubrid-protocol/src/response.rs:36-88 | parsing any encoded column list, with either type form, gives back every retained field and stops at its end |
| Replies.InfosInvert | crates/cubrid-protocol/src/response.rs:100-119 | the same for result infos |
| Replies.ReplyInverts | crates/cubrid-protocol/src/response.rs:279-337 | parsing any encoded FC=41 reply gives back every retained field and the token, for every protocol version, with or without an inline row block |
| Replies.PrepareInverts | crates/cubrid-protocol/src/response.rs:340-368 | the same for FC=2 replies |
| Replies.ExecuteInverts | crates/cubrid-protocol/src/response.rs:371-418 | the same for FC=3 replies and any column list; without columns no rows are read, announced or not |
| Replies.FetchInverts | crates/cubrid-protocol/src/response.rs:421-442 | the same for FC=8 replies, with any number of rows and any column list |
| Replies.NothingAnnounced | crates/cubrid-protocol/src/response.rs:421-442 | an FC=8 reply that announces no rows, or a negative number, is taken at its word |
| Replies.ErrorInverts | crates/cubrid-protocol/src/response.rs:286-290 | a negative response code gives exactly the encoded error code and message, from every parser |
| Replies.SimpleInverts | crates/cubrid-client/src/lib.rs:638-652 | an accepted reply without a body gives its token |
| Replies.VersionInverts | crates/cubrid-protocol/src/handshake.rs:143-161 | an accepted version reply gives its token and its text |
| Layouts.VersionLayout | crates/cubrid-protocol/src/response.rs:306-311 | which protocol versions have the column-info byte and the shard id |
| Layouts.SelectReplyBytes | crates/cubrid-protocol/src/response.rs:279-337 | an FC=41 reply in literal bytes and every field that is read from it |
| Layouts.PrepareReplyBytes | crates/cubrid-protocol/src/response.rs:340-368 | the same for an FC=2 reply |
| Layouts.ExecuteReplyBytes | crates/cubrid-protocol/src/response.rs:371-418 | the same for an FC=3 reply |
| Layouts.FetchReplyBytes | crates/cubrid-protocol/src/response.rs:421-442 | the same for an FC=8 reply |
| Malformed.PreparePanics | crates/cubrid-protocol/src/response.rs:340-368 | on any bytes, parsing an FC=2 reply panics if and only if the column count at its fixed place is negative |
| Malformed.ExecutePanics | crates/cubrid-protocol/src/response.rs:371-418 | on any bytes, parsing an FC=3 reply panics if and only if the result count at its fixed place is negative |
| Malformed.PrepareAndExecutePanics | crates/cubrid-protocol/src/response.rs:279-337 | on any bytes, parsing an FC=41 reply panics if and only if the column count, or the result count after well-formed columns, is negative |
| Malformed.ColumnCountPanics | crates/cubrid-protocol/src/response.rs:40-41 | a packet of 22 bytes that makes both description parsers panic |
| Malformed.ResultCountPanics | crates/cubrid-protocol/src/response.rs:104-105 | a packet of 13 bytes that makes the FC=3 parser panic |
| Malformed.OthersNeverPanic | crates/cubrid-protocol/src/response.rs:421-442 | the other parsers return a value or an error on every byte string |
| Malformed.PrepareExact | crates/cubrid-protocol/src/response.rs:340-368 | FC=2 parsing succeeds exactly on encodings of the result it returns |
| Malformed.ExecuteExact | crates/cubrid-protocol/src/response.rs:371-418 | for statements that are no SELECT, FC=3 parsing succeeds exactly on encodings of its result, under every protocol version |
| Malformed.PrepareAndExecuteExact | crates/cubrid-protocol/src/response.rs:279-337 | the same for FC=41 parsing |
| Writer.SplitInverts | crates/cubrid-protocol/src/codec.rs:130-192 | length-prefixed arguments are read back one by one |
| Writer.SplitUnique | crates/cubrid-protocol/src/codec.rs:130-192 | there is no other way to read them |
| Writer.PacketWriter.AddInt | crates/cubrid-protocol/src/codec.rs:153-156 | a prefixed write adds exactly one argument to whatever request is being built |
| Writer.PacketWriter.WriteNullTermString | crates/cubrid-protocol/src/codec.rs:130-135 | the raw string write is one argument too |
| Writer.PacketWriter.BuildRequest | crates/cubrid-protocol/src/codec.rs:205-211 | the frame: payload length as u32, token, payload |
| Writer.ReceiveInverts | crates/cubrid-client/src/conn.rs:102-131 | one framed request followed by anything is received whole |
| Writer.StreamInverts | crates/cubrid-client/src/conn.rs:102-131 | repeated receiving takes a stream of built requests apart again and leaves what was not a frame |
| Request.WritePrepareAndExecute | crates/cubrid-protocol/src/request.rs:10-30 | the FC=41 request is these ten arguments, raw writes included |
| Request.WritePrepare | crates/cubrid-protocol/src/request.rs:33-40 | the FC=2 request is these three arguments |
| Request.WriteExecute | crates/cubrid-protocol/src/request.rs:43-75 | the FC=3 request is these ten arguments, raw writes and bind data included |
| Request.WriteFetch | crates/cubrid-protocol/src/request.rs:78-92 | the FC=8 request asks for the 1-based position after the rows already here |
| Request.WriteCloseReqHandle | crates/cubrid-protocol/src/request.rs:95-100 | the FC=6 request names the handle |
| Request.WriteByteRequest | crates/cubrid-protocol/src/handshake.rs:124-140 | end-of-transaction and version requests carry one byte |
| Request.WriteConClose | crates/cubrid-protocol/src/handshake.rs:117-121 | the connection-close request has no arguments |
| Request.RequestsSplit | crates/cubrid-protocol/src/request.rs:10-92 | the payloads of the four builders with several arguments split uniquely into the intended ones, for any bind parameters |
| Link.EveryRequestSplits | crates/cubrid-protocol/src/codec.rs:130-211 | from its framed bytes, every request the client sends reads back as its token, function code and arguments; the `Frames` lemmas say which these are |
| Frames.RunSays | crates/cubrid-protocol/src/request.rs:10-30 | in the frame of an FC=41 request: its length, the token, 41, and ten arguments with the text and the auto-commit byte in their places |
| Frames.PrepareSays | crates/cubrid-protocol/src/request.rs:33-40 | in the frame of an FC=2 request: the text, a zero and the auto-commit byte |
| Frames.ExecuteSays | crates/cubrid-protocol/src/request.rs:43-75 | in the frame of an FC=3 request: the handle, no parameters, and whether rows are wanted, which is for byte 21 only |
| Frames.FetchSays | crates/cubrid-protocol/src/request.rs:78-92 | in the frame of an FC=8 request: the handle, the position after the rows that are here, and 100 |
| Frames.CloseSays | crates/cubrid-protocol/src/request.rs:95-100 | in the frame of an FC=6 request: the handle and nothing else |
| Frames.EndSays | crates/cubrid-protocol/src/handshake.rs:124-132 | in the frame of an FC=1 request: the action byte |
| Frames.VersionSays | crates/cubrid-protocol/src/handshake.rs:135-140 | in the frame of an FC=15 request: the auto-commit byte |
| Frames.LeaveSays | crates/cubrid-protocol/src/handshake.rs:117-121 | in the frame of an FC=31 request: nothing |
| Frames.OnlyClosesClose | crates/cubrid-client/src/lib.rs:396-407 | read from the bytes alone, exactly the close requests ask to close a handle, and they name the one that is meant |
| Request.EncodeBindParams | crates/cubrid-protocol/src/request.rs:114-236 | the loop writes one cell after the other |
| BindLists.BindListExact | crates/cubrid-protocol/src/request.rs:114-236 | encoded parameters after a row header are one CALL row, consumed exactly and holding the canonical values, if and only if the list has no time and no timestamp |
| BindLists.CellsLag | crates/cubrid-protocol/src/response.rs:239-265 | a reader that is behind when it comes to a bound value, and gets the right values all the same, never catches up |
| Request.BindExact | crates/cubrid-protocol/src/request.rs:125-236 | a bound value is read back in canonical form and consumed exactly if and only if it is neither a time nor a timestamp |
| Layouts.BindTypes | crates/cubrid-protocol/src/request.rs:125-236 | the type byte every kind of value is bound under |
| Layouts.BoolBytes | crates/cubrid-protocol/src/request.rs:127-134 | NULL is a size of zero; a boolean is the short 1 or 0 in literal bytes, and read back as that |
| Layouts.DateBytes | crates/cubrid-protocol/src/request.rs:172-182 | a date is fifteen bytes of type 22, at midnight |
| Request.TimeIsLost | crates/cubrid-protocol/src/request.rs:202-216 | a bound time is read back as midnight and leaves eight bytes to be taken for the next cell |
| Request.TimestampLeavesBytes | crates/cubrid-protocol/src/request.rs:217-234 | a bound timestamp is read back and leaves two bytes to be taken for the next cell |
| Handshake.WriteOpenDatabase | crates/cubrid-protocol/src/handshake.rs:56-65 | the request has 628 bytes: three fixed fields and zeros |
| Handshake.OpenRequestReads | crates/cubrid-protocol/src/handshake.rs:56-65 | the fields hold the login exactly if and only if each text fits 32 bytes and does not end in NUL |
| Handshake.LongNamesCollide | crates/cubrid-protocol/src/codec.rs:117-125 | names that differ only after 32 characters make the same request |
| Handshake.ParseOpenDatabase | crates/cubrid-protocol/src/handshake.rs:89-114 | the reply is read as specified |
| Handshake.OpenReplyInverts | crates/cubrid-protocol/src/handshake.rs:89-114 | the reply gives token, protocol version (low six bits of the fifth broker byte) and session id, or its error |
| Link.RecvReceives | crates/cubrid-client/src/conn.rs:102-131 | on a stream without faults, receiving takes one whole frame |
| Link.Connection.RecvFramed | crates/cubrid-client/src/conn.rs:102-131 | two exact reads, either of which may fail and lose bytes |
| Link.Connection.RoundTrip | crates/cubrid-client/src/conn.rs:91-131 | a request is sent with the current token and its reply, if any, recorded |
| Clients.Client.Execute | crates/cubrid-client/src/lib.rs:182-205 | result and new connection state of `execute`, closed connection, panics and stream errors included |
| Session.AffectedExactly | crates/cubrid-client/src/lib.rs:200-204 | the running u64 sum is the total of the counts exactly when that fits |
| Session.TotalIsPlain | crates/cubrid-client/src/lib.rs:200-204 | that total is the sum of the counts if and only if none is negative |
| Clients.Client.Query | crates/cubrid-client/src/lib.rs:224-265 | the same for `query` |
| Clients.Client.FetchRemaining | crates/cubrid-client/src/lib.rs:409-437 | the cursor loop does what its specification says, round by round, and ends |
| Clients.Client.CloseQueryHandle | crates/cubrid-client/src/lib.rs:396-407 | the request of `Calls.ReleaseAsks`; errors are ignored and the reply's token is not kept |
| Clients.Client.Prepare | crates/cubrid-client/src/lib.rs:283-302 | the same for `prepare`, which returns a new open statement |
| Clients.Client.EndTran | crates/cubrid-client/src/lib.rs:384-394 | one exchange with the given action byte |
| Clients.Client.Commit | crates/cubrid-client/src/lib.rs:305-307 | `commit`, whose request and answer are in `Calls.CommitAsks` |
| Clients.Client.Rollback | crates/cubrid-client/src/lib.rs:310-312 | `rollback`, whose request and answer are in `Calls.RollbackAsks` |
| Clients.Client.Ping | crates/cubrid-client/src/lib.rs:317-327 | the same for `ping` |
| Clients.Client.Close | crates/cubrid-client/src/lib.rs:363-371 | closing sends one last request, and only once |
| Clients.Statement.Execute | crates/cubrid-client/src/lib.rs:463-494 | closed statement, interpolation fallback, FC=3 execution |
| Clients.Statement.QueryWith | crates/cubrid-client/src/lib.rs:509-558 | the same for queries, with the cursor loop |
| Clients.Statement.Close | crates/cubrid-client/src/lib.rs:576-586 | the handle is closed once and forgotten |
| Calls.RunAsks | crates/cubrid-client/src/lib.rs:182-265 | `execute` and `query` first send 41 with the UTF-8 of the template's pieces and the formatted values between them, and the auto-commit mode |
| Calls.StatementAsks | crates/cubrid-client/src/lib.rs:463-558 | statements with parameters send the same, and without parameters 3 and their handle |
| Calls.PrepareAsks | crates/cubrid-client/src/lib.rs:283-302 | `prepare` sends 2, the text and the auto-commit mode, and nothing else |
| Calls.CommitAsks | crates/cubrid-client/src/lib.rs:305-307 | `commit` sends 1 with the argument 1; it succeeds, and takes over the token, if and only if a reply comes whose header is accepted |
| Calls.RollbackAsks | crates/cubrid-client/src/lib.rs:310-312 | `rollback` sends 1 with the argument 2, and the same |
| Calls.PingAsks | crates/cubrid-client/src/lib.rs:317-327 | `ping` sends 15 and the auto-commit mode and answers with the text of the reply, or its error |
| Calls.PlainCallsComplete | crates/cubrid-client/src/lib.rs:305-394 | on a stream with a well-formed reply all three succeed, with its text and its token |
| Calls.CloseAsks | crates/cubrid-client/src/lib.rs:363-371 | `close` sends 31 once, waits for nothing, and leaves a client that sends nothing more |
| Calls.ClosedCallsRefused | crates/cubrid-client/src/lib.rs:182-586 | on a closed client, and on a closed statement, every call is refused as closed and changes nothing |
| Calls.StatementCloseAsks | crates/cubrid-client/src/lib.rs:576-586 | closing a statement asks to close its handle, at most once, and leaves the token alone |
| Calls.ReleaseAsks | crates/cubrid-client/src/lib.rs:396-407 | a handle from 1 up is asked to be closed, once, and no other; the token stays |
| Calls.ExecuteTraffic | crates/cubrid-client/src/lib.rs:182-205 | all that `execute` sends after an accepted reply: the close request for its handle, under its token |
| Calls.QueryTraffic | crates/cubrid-client/src/lib.rs:224-265 | a query that returns rows ends by asking to close the handle of its reply |
| Completeness.FetchAsks | crates/cubrid-protocol/src/request.rs:78-92 | the bytes of a fetch request ask for the position after the rows already here |
| Completeness.FetchCompletes | crates/cubrid-client/src/lib.rs:409-437 | from any position, against any server that answers each fetch with some of the rows its bytes ask for, the loop ends with exactly all rows in order |
| Completeness.QueryCompletes | crates/cubrid-client/src/lib.rs:224-265 | `query` returns exactly the server's rows in order to a reply with statement byte 21, however many come inline and however the rest is batched |
| Completeness.QueryWithoutRows | crates/cubrid-client/src/lib.rs:224-265 | to a reply with any other statement byte `query` returns its columns and total, and no rows |
| Completeness.StatementQueryCompletes | crates/cubrid-client/src/lib.rs:509-558 | the same for a prepared statement without parameters |
| Completeness.StatementQueryWithoutRows | crates/cubrid-client/src/lib.rs:509-558 | the same for a prepared statement that is no SELECT |
| Completeness.ExecuteCompletes | crates/cubrid-client/src/lib.rs:182-205 | `execute` answers with the sum of the counts the reply encodes, or panics when that does not fit |
| Completeness.StatementExecuteCompletes | crates/cubrid-client/src/lib.rs:463-494 | executing a prepared statement without parameters, of any type and with any columns, answers with the sum of the counts the FC=3 reply encodes, or panics when that does not fit |
| Completeness.PrepareCompletes | crates/cubrid-client/src/lib.rs:283-302 | `prepare` gives the statement the reply describes |
| Completeness.ErrorsSurface | crates/cubrid-client/src/lib.rs:182-437 | a server error comes back with its code and message from every request, and leaves the token alone |
| Completeness.BatchesServe | crates/cubrid-client/src/lib.rs:417-435 | on the bytes of a server that cuts the rows into any sizes from 1 to 100, the loop makes one request for each and takes exactly their bytes |
| Completeness.QueryOverBytes | crates/cubrid-client/src/lib.rs:224-265 | from the bytes of a first reply and any such batches, `query` returns every row |
| Example.TwoRows | crates/cubrid-client/src/lib.rs:224-265 | a concrete server meets every premise: two rows fetched one at a time are returned |
| Cursor.FetchBound | crates/cubrid-client/src/lib.rs:417-435 | against any server, and however it ends, the loop makes at most as many requests as rows are missing, and n + 1 more for each reply that announces -n rows |
| Cursor.NoSetbacks | crates/cubrid-client/src/lib.rs:417-435 | without negative counts nothing is added to the missing rows |
| Cursor.SetbacksStall | crates/cubrid-client/src/lib.rs:417-435 | a server that keeps announcing -1 rows gets n + 1 requests from n replies, however few rows are missing |
| Example.BackAndForthFails | crates/cubrid-client/src/lib.rs:417-435 | one row missing and announcements of -1, 1 and 1: three requests, one of them for position 0, and two rows |
| Cursor.FetchReturns | crates/cubrid-client/src/lib.rs:417-435 | the loop succeeds if and only if every fetch is answered by a batch that the count can take |
| Cursor.QueryReturns | crates/cubrid-client/src/lib.rs:224-265 | `query` returns rows if and only if its first reply is accepted and, for a SELECT with rows missing, every fetch is answered |
| Cursor.FetchTracks | crates/cubrid-client/src/lib.rs:417-435 | with columns, every request asks for the rows after those that are here if and only if no reply that announces a negative number is followed by another request |
| Cursor.FetchGathers | crates/cubrid-client/src/lib.rs:417-435 | with columns and against any server, what is returned starts with the rows that were there, and it is as many as the total or the server said that there are no more |
| Tokens.RunKeeps | crates/cubrid-client/src/lib.rs:182-437 | every client operation keeps the token in step with the last accepted reply |
| Tokens.TokenDiscipline | crates/cubrid-client/src/lib.rs:182-437 | over any run, server and faults, every framed request carries the token of the last accepted reply before it, close-handle replies aside |
| Handles.ExecuteHolds | crates/cubrid-client/src/lib.rs:182-205 | `execute` asks to close, exactly once, the handle of an accepted reply; what a refused reply names stays open |
| Handles.QueryHolds | crates/cubrid-client/src/lib.rs:224-265 | `query` asks to close, exactly once, what its reply names if the reply is accepted and every fetch that is needed is answered; otherwise that stays open |
| Handles.HandleStaysOpen | crates/cubrid-client/src/lib.rs:192-198 | a handle stays open after `execute` if and only if the reply names one and is refused; after `query` (lines 234-258) if and only if the reply names one and is refused, or is a SELECT with rows missing and a fetch that is not answered |
| Handles.PrepareHolds | crates/cubrid-client/src/lib.rs:283-302 | what a reply to `prepare` names is the handle of the statement returned if the reply is accepted, and stays open otherwise |
| Handles.RefusedHandleLost | crates/cubrid-client/src/lib.rs:182-302 | any refused reply whose header names a handle loses it, to `execute`, `query` and `prepare` |
| Example.HandleSevenRefused | crates/cubrid-client/src/lib.rs:182-302 | a reply of eight bytes that leaves handle 7 open after each of the three |
| Handles.HandleLost | crates/cubrid-client/src/lib.rs:243-258 | a stream that ends after an accepted reply to a SELECT with rows missing leaves the handle open |
| Example.HandleSevenLost | crates/cubrid-client/src/lib.rs:243-258 | a concrete stream that leaves handle 7 open |
| Handles.StatementHolds | crates/cubrid-client/src/lib.rs:463-558 | executing a statement opens and closes nothing, unless parameters make it a fresh execution or query, with what that loses |
| Handles.StepAccounts | crates/cubrid-client/src/lib.rs:182-586 | every operation keeps the account: the handles that replies have named are those asked to be closed, those of unclosed statements and the lost ones |
| Handles.HandleDiscipline | crates/cubrid-client/src/lib.rs:182-586 | over any run, no frame ever asks to close a handle that is not open, and what is open is what unclosed statements hold and what refused replies, queries without all their rows and a closed connection lost |
| Interpolation.InterpolateParams | crates/cubrid-client/src/lib.rs:659-686 | the nested loops compute the quote automaton, early return included |
| Interpolation.NothingToFill | crates/cubrid-client/src/lib.rs:660-662 | without parameters the loop would copy the text |
| Interpolation.PieceCount | crates/cubrid-client/src/lib.rs:668-684 | as many marks are replaced as there are unquoted marks and parameters |
| Interpolation.SubstituteWeaves | crates/cubrid-client/src/lib.rs:668-684 | the result is the template's pieces, copied verbatim, with the formatted values between them in order |
| Interpolation.PiecesOfTemplate | crates/cubrid-client/src/lib.rs:668-684 | the pieces are the template cut at marks: with marks between them they give it back |
| Interpolation.FormattedLiterals | crates/cubrid-client/src/lib.rs:689-740 | every formatted value leaves the quote parity alone and has the string literals of what was bound |
| SqlReader.FormattedReads | crates/cubrid-client/src/lib.rs:689-740 | a reader of NULL, numbers, keywords, quoted texts and the fields of dates and times reads every formatted value that is no float back as what was bound, a boolean as 1 or 0 |
| SqlReader.InterpolationMeans | crates/cubrid-client/src/lib.rs:659-740 | the interpolated text is the template's pieces with one literal for each parameter, in order, that reads as what was bound |
| SqlReader.FormattedBare | crates/cubrid-client/src/lib.rs:691-697 | NULL, booleans and integers as they stand in the text |
| SqlReader.FormattedText | crates/cubrid-client/src/lib.rs:698-701 | a quote is doubled |
| SqlReader.FormattedDatetime | crates/cubrid-client/src/lib.rs:725-738 | a datetime in the text, padded to four, two and three places |
| Interpolation.ScanSegments | crates/cubrid-client/src/lib.rs:659-740 | a quote-doubling reader reads balanced segments one by one if and only if no quotes meet at a seam |
| Interpolation.TemplateReads | crates/cubrid-client/src/lib.rs:659-686 | the template's own literals are those of its pieces |
| Interpolation.InterpolationReads | crates/cubrid-client/src/lib.rs:659-740 | the result reads as the template's literals with the bound values between them if and only if no quotes meet at a seam |
| Interpolation.SpacedTemplateReads | crates/cubrid-client/src/lib.rs:659-740 | that is so for all values whenever no replaced mark of the template stands next to a quote or another replaced mark |
| Interpolation.TemplateExact | crates/cubrid-client/src/lib.rs:659-740 | that condition on the template is exact: all lists of n parameters read back if and only if it holds |
| Interpolation.TouchingTemplateFails | crates/cubrid-client/src/lib.rs:659-740 | two empty strings bound to touching marks are read as one literal |
| Text.IntegerOfPadded | crates/cubrid-client/src/lib.rs:706-738 | zero-padded numbers in dates and times read back as the number, negative ones too |
| Text.IntegerOfDecimal | crates/cubrid-client/src/lib.rs:693-695 | formatted integers read back as the number |
| Text.UnHexOfHex | crates/cubrid-client/src/lib.rs:702-705 | the hexadecimal text of bytes reads back as the bytes |
| Pool.SyncPool.Validate | crates/cubrid-pool/src/lib.rs:120-135 | a configuration is accepted exactly when it has a DSN, room, and no more idle clients than room |
| Pool.SyncPool.New | crates/cubrid-pool/src/lib.rs:168-185 | the first clients are connected in order; one failure fails the whole |
| Pool.SyncPool.TryReserve | crates/cubrid-pool/src/lib.rs:192-214 | the locked section of `get` |
| Pool.SyncPool.Get | crates/cubrid-pool/src/lib.rs:192-231 | `get` as a whole, with the slot given back when the connect fails |
| Pool.SyncPool.Drop | crates/cubrid-pool/src/lib.rs:277-290 | a dropped handle gives its slot back and its client too, unless that or the pool is closed |
| Pool.SyncPool.Close | crates/cubrid-pool/src/lib.rs:245-251 | the pool is closed and every idle client drained, in order |
| Pool.StepKeeps | crates/cubrid-pool/src/lib.rs:192-290 | every section of any thread keeps accounting, ownership and queue order |
| Pool.PoolBound | crates/cubrid-pool/src/lib.rs:168-290 | under every interleaving of any number of threads, the count is live handles plus connects in flight, the bound holds and nothing underflows |
| Pool.ExhaustedExactly | crates/cubrid-pool/src/lib.rs:192-231 | `get` finds the pool exhausted exactly when every slot is held or being connected, and closed exactly when it is |
| Pool.GetAnswers | crates/cubrid-pool/src/lib.rs:192-231 | in every reachable state: closed if and only if somebody closed the pool, else the client longest in the queue, else a new connection if there is room, else exhausted |
| Pool.GetsDrain | crates/cubrid-pool/src/lib.rs:198-205 | as many `get`s as there are idle clients are given those, in order |
| Pool.DroppedComesBack | crates/cubrid-pool/src/lib.rs:277-290 | an open client dropped into an open pool goes to the end of the queue, and the `get`s that reach the end are given it |
| Pool.DroppedForGood | crates/cubrid-pool/src/lib.rs:277-290 | a closed client, or any in a closed pool, is gone when dropped, and its slot is free |
| Pool.ValidExactly | crates/cubrid-pool/src/lib.rs:120-135 | the accepted configurations are those with a DSN and room whose first state keeps the bound |
| Pool.Ownership | crates/cubrid-pool/src/lib.rs:192-290 | every client ever connected is in exactly one place, and every idle client is open |
| Pool.FirstInFirstOut | crates/cubrid-pool/src/lib.rs:199-205 | clients are handed out in the order in which they came into the queue |
| Pool.ClosedForGood | crates/cubrid-pool/src/lib.rs:245-251 | a closed pool stays closed and empty, and every later `get` is told so |
| AsyncPool.AsyncPool.TryReserve | crates/cubrid-pool/src/lib.rs:337-359 | the locked section of `get` is the step of the state machine |
| AsyncPool.AsyncPool.Drop | crates/cubrid-pool/src/lib.rs:421-430 | dropping a handle is the step: a live client gets a return task, a dead one takes its slot with it, and the shared state is not touched |
| AsyncPool.AsyncPool.Return | crates/cubrid-pool/src/lib.rs:431-437 | the return task is the step: slot and client are given back |
| AsyncPool.StepRefines | crates/cubrid-pool/src/lib.rs:337-439 | an action that leaks nothing is its abstraction to the sync pool, or nothing |
| AsyncPool.RunRefines | crates/cubrid-pool/src/lib.rs:337-439 | a run without dead drops and cancelled gets is a run of the sync pool, with the same answers |
| AsyncPool.AsyncBound | crates/cubrid-pool/src/lib.rs:337-439 | under every interleaving the count is live handles, connects in flight, pending returns and leaks, and the bound holds |
| AsyncPool.LeaksArePermanent | crates/cubrid-pool/src/lib.rs:421-429 | after a leak, everything else fits for good into what is left |
| AsyncPool.AllLeaked | crates/cubrid-pool/src/lib.rs:421-429 | once every slot has leaked, no `get` ever succeeds again |
| AsyncPool.OneLeakEmptiesThePool | crates/cubrid-pool/src/lib.rs:421-429 | it comes to that: in a pool of one, a handle whose client is closed before it is dropped |
| Percent.PercentDecode | crates/cubrid-client/src/dsn.rs:171-189 | the loop decodes as specified |
| Percent.PercentRoundTrip | crates/cubrid-client/src/dsn.rs:171-189 | decoding undoes encoding if and only if the text is ASCII; otherwise the bytes come back as characters |
| Percent.AccentLost | crates/cubrid-client/src/dsn.rs:171-189 | an accented letter comes back as two other characters |
| Percent.SignedEscape | crates/cubrid-client/src/dsn.rs:176-182 | a plus sign and one digit pass for an escape |
| Percent.EscapeDecodes | crates/cubrid-client/src/dsn.rs:171-189 | two digits of either case after a percent sign are the byte they spell |
| Percent.NoEscape | crates/cubrid-client/src/dsn.rs:171-189 | everything that is no escape stays as it is |
| Dsn.Parse | crates/cubrid-client/src/dsn.rs:66-168 | the parser does what its specification says, each error included |
| DsnTexts.PartsParse | crates/cubrid-client/src/dsn.rs:66-168 | for any parts, cut at the last `@`, the first colon of the login, the first slash, the last colon or the bracket of the place, the first question mark and the ampersands, parsing gives what they stand for, or the first of four errors that applies |
| DsnTexts.PartsOfText | crates/cubrid-client/src/dsn.rs:66-168 | every text lacks the scheme, which is its error and no other's, or has such parts, or is refused for want of a database |
| DsnTexts.NumbersAccepted | crates/cubrid-client/src/dsn.rs:118-161 | a port or timeout is accepted if and only if it spells a number below the limit, zeros before it and a plus sign allowed |
| DsnTexts.DefaultsParse | crates/cubrid-client/src/dsn.rs:29-41 | a DSN with only a database has every default |
| DsnTexts.PortEdges | crates/cubrid-client/src/dsn.rs:118-135 | 65535 is a port; 65536, a negative number, the empty text and trailing letters are not |
| Dsn.HostReads | crates/cubrid-client/src/dsn.rs:112-142 | a name, a bracketed address or nothing, with or without a port, is read as meant |
| Dsn.OptionsRead | crates/cubrid-client/src/dsn.rs:145-165 | of duplicate options the last one wins, and unknown ones are ignored |
| Dsn.ParseInverts | crates/cubrid-client/src/dsn.rs:66-168 | parsing any written DSN gives back every field, with the defaults for what was left out |

## Left out

- TCP, timeouts, host names and socket shutdown are library I/O: a connection is the bytes that will arrive and the stream operations that fail.
- The broker exchange before the open-database request (magic bytes and redirect port) only copies constants and one integer.
- `cubrid-tokio` repeats the client's protocol logic; only the async pool's interleavings are modelled.
- `last_insert_id` is a query and a printing of its first value; `parse_get_last_insert_id` and `write_get_last_insert_id` are not used by the client.
- The writer's `add_short`, `add_long`, `add_float` and `add_double` are not used by any request.
- Decimal text of floats is a parameter, taken to be free of quotes.
- Bare values (NULL, booleans, numbers) next to a letter or digit of the template: that they read back is stated for each value by itself.
- SQL beyond single-quoted literals (comments, quoted identifiers, backslash escapes): `interpolate_params` does not know them.
- A handle that the server opens in a reply that never arrives: the accounts are of the handles that received replies name.
- Memory exhaustion, by large positive counts or long frames.
- Error texts: errors carry their kind and their numbers, and a server error its message.
- Swapping pooled clients through `DerefMut`, lock poisoning, and a statement used with another client than its own.
- Builds without overflow checks, where the sums in `execute` and in the cursor loop would wrap instead of panicking.
- Loop bodies and locked sections of the source are methods of their own here (`Response.ParseColumn`, `Clients.Client.FetchBatch`, `Pool.SyncPool.TryReserve`).
- The client's `Option` of a connection is a connection and a flag, so that its history stays in view after `close`.
- What the async runtime does to spawned returns at shutdown; until then a return is a step that may come at any time.
