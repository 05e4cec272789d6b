# simple-http-server, modelled in Dafny

simple-http-server is a small static-file HTTP/1.0 server written in C. It
comes in three generations that share one repository:

- `http_server.c`: a thread-per-connection server on raw sockets.
  - It reads the request line with `get_line_from_socket`.
  - It maps the URL below `htmldoc`.
  - It answers with canned header lines (`not_found`, `unimplemented`,
    `send_response_headers`).
- `src/http_functions.c` with `src/http_response.c`: a bufferevent server.
  - It frames lines out of a libevent bufferevent.
  - It parses the request line and the header block into an
    `http_headers_t` record.
  - A GET serves a file or an HTML directory listing.
  - A POST stores a multipart upload.
  - Fixed status responses are written line by line.
- `src/httpd.c` and `src/httpd.h`: an evhttp server.
  - libevent parses the request.
  - A GET streams a file or a listing as chunks.
  - A POST is stored by `handle_post_helper`.
  - `guess_content_type` picks the Content-Type from a table of extensions.

The model passes values rather than sockets:

- A connection's input is a string with a read cursor. Every line reader
  returns the line, its return value and the new cursor.
- What a server writes to a socket is the old output with bytes appended.
- What an evhttp handler does to its request is a sequence of `Reply`
  events: `SendError`, `AddHeader`, `SendReply`, `ReplyStart`, `Chunk`,
  `ReplyEnd`.

The filesystem and the allocator are inputs:

- `stat`, `opendir` and `readdir` are inputs.
- So are whether `fopen`, `open` and `malloc` succeed.

Each loop of the C code is a method with a `while` loop. It is proved
against a recursive specification function, and the properties the server
promises are proved about those functions.

Two kinds of C behaviour are represented explicitly:

- **Undefined behaviour** becomes a precondition. This covers reading past a
  terminating NUL, `strstr` returning NULL and then being offset,
  `fclose(NULL)`, and writing past a fixed buffer.
- **A loop that never ends** becomes an explicit `Stalled` outcome. This is
  the upload loop that waits forever once every read returns 0.

Modules:

- `CString`: C string helpers (`isspace`, `strcasecmp`, `strstr`, `strrchr`,
  `atoi`, NUL termination).
- `LineFraming`: the three line readers.
- `HttpResponse`: the status responses.
- `RequestParser`: request-line and header parsing.
- `MultipartUpload`: the bufferevent upload.
- `PostIngest`: the evhttp upload.
- `Paths`: path mapping.
- `ContentType`: the extension table.
- `Evhttp`: the libevent vocabulary.
- `FileServer`: `do_accept_cb` and its GET handlers.
- `EventServer`: `handle_request_cb`, `handle_get_helper` and
  `send_document_cb`.
- `ThreadServer`: `http_server.c`.

Where the design description of the server and its code disagree, the model
follows the code:

- **The header loop drains the stream.** `get_other_headers`
  (`src/http_functions.c:134-190`) has its blank-line test commented out. It
  reads until the stream is empty instead of stopping at the empty line that
  ends the header block. `RequestParser.GetOtherHeaders` ends at the end of
  the input. Consequently an upload handled by `do_accept_cb` always sees an
  empty body (`FileServer.PostFindsStreamDrained`).
- **`..` is rejected as a substring.** `handle_request_cb` and
  `send_document_cb` reject any decoded path that contains `..`, even inside
  a name such as `/this/one..here`, not only a `..` segment
  (`Paths.DotDotExamples`). `http_server.c` does not check at all
  (`ThreadServer.TraversalUnchecked`).
- **The bufferevent upload includes the blank line.**
  `recv_file_from_client` writes the blank line that separates the part
  header from the data into the file. It starts writing at that line.
- **`send_document_cb` answers 200 to any method except GET.** It calls
  `dump_request_cb`, which replies 200 with an empty body.
- **`handle_post_helper` stores data exactly only when its lines end in a
  bare `\n`.** It counts the data with the bytes the reader returns after
  folding `\r\n` to `\n`, and it cuts one byte off the line that exhausts
  the count. With bare-`\n` data, that byte is the `\n` of the final CRLF,
  and the file is exactly the data (`PostIngest.UploadStored`). With
  CRLF-terminated data:
  - every CR is dropped;
  - the last data line keeps a `\n` that the client sent as framing, not
    as data (`PostIngest.CrlfTwoLines`);
  - with three lines, the count outlasts the data and the closing marker
    is written into the file (`PostIngest.CrlfThreeLines`).

## Model

| member | source | states |
|---|---|---|
| LineFraming.FramedLine | src/http_functions.c:38-62 | The line read from a stream is at most 1023 bytes. It is non-empty when the stream is, and the empty frame is read from an empty stream. |
| LineFraming.FramedLineShape | src/http_functions.c:38-62 | A framed line has no '\n' before its end. It ends with '\n', fills the 1023-byte cap, or takes the rest of the stream. It is the bytes consumed, except that a consumed "\r\n" becomes a single '\n'. |
| LineFraming.GetLineFromBufferevent | src/http_functions.c:38-62 | The byte-by-byte loop stores exactly the framed line of the unread stream. It advances the cursor by the bytes consumed and returns the stored length. |
| LineFraming.GetLineFromEvbuffer | src/httpd.c:104-129 | The evbuffer reader frames the same line. It returns the number of bytes consumed, which counts the '\r' of a CRLF. |
| LineFraming.LineEndIndex | http_server.c:25-49 | This is the first CR or LF of the stream; no CR or LF comes before it. |
| LineFraming.GetLineFromSocket | http_server.c:25-49 | The socket reader stores the line up to the first CR, LF or CRLF, ending it with a single '\n', and returns its length. No CR or LF occurs before the end of the line. |
| LineFraming.FramedSimpleLine | src/http_functions.c:38-62 | A line ending in a bare '\n' is read unchanged. |
| LineFraming.FramedCrlfLine | src/http_functions.c:38-62 | A line sent with "\r\n" is read as the text followed by '\n', consuming two more bytes than the text. |
| CString.AtoiDecimal | src/http_functions.c:178-185 | atoi of the decimal rendering of n is n, so a Content-Length written in decimal is read back as its value. |
| HttpResponse.Code | src/http_response.h:14-26 | Every status code lies in 200..599, and 200 belongs to the OK status alone. The codes of the error statuses are the numbers that start their title macros, which StatusLineFields ties to the titles. |
| HttpResponse.FormatAndSendResponse | src/http_response.c:10-16 | The message, followed by CRLF, is appended to the socket output. |
| HttpResponse.HttpOk | src/http_response.c:18-25 | It writes the 200 response: the status line, Server, Content-Type, then an empty line. |
| HttpResponse.HttpOkLength | src/http_response.c:27-36 | The file name is ignored, and the same bytes as http_ok are written. |
| HttpResponse.HttpNotImplemented | src/http_response.c:38-49 | It writes the 501 response: the header block and then the HTML page. |
| HttpResponse.HttpInternalServerError | src/http_response.c:51-62 | It writes the 500 response: the header block and then the HTML page. |
| HttpResponse.HttpNotFound | src/http_response.c:64-75 | It writes the 404 response: the header block and then the HTML page. |
| HttpResponse.HttpForbidden | src/http_response.c:77-88 | It writes the 403 response: the header block and then the HTML page. |
| HttpResponse.HttpBadRequest | src/http_response.c:90-101 | It writes the 400 response: the header block and then the HTML page. |
| HttpResponse.SplitJoinCrlf | src/http_response.c:10-16 | Splitting the output at CRLF gives back exactly the messages sent, provided every message is printable. |
| HttpResponse.ReplyBytes | src/http_response.c:38-49 | A response starts with the status line, Server and Content-Type lines and ends its header block with "\r\n\r\n". Only the page follows. |
| HttpResponse.ResponseLines | src/http_response.c:18-101 | Every response splits back into its lines. A 200 has 4 lines and an error has 5. The fourth line is always empty, and only errors carry a page. |
| HttpResponse.ResponseHeaderBlock | src/http_response.c:18-101 | The header block of every response ends at a fixed offset after the status line. The HTML page of an error follows it, and nothing follows it for 200. |
| HttpResponse.StatusLineFields | src/http_response.c:21 | The status line is "HTTP/1.0", a three-digit code and the reason phrase (section 6.1 of RFC 1945). The page title starts with the same code. |
| RequestParser.SplitAtQuery | src/http_functions.c:90-98 | The path contains no '?'. When the URL has a '?', path + "?" + query is the URL; otherwise the query is empty. |
| RequestParser.SplitQuery | src/http_functions.c:90-98 | The loop that cuts the URL at its first '?' computes SplitAtQuery of the copied URL. |
| RequestParser.GetMethodFromStr | src/http_functions.c:64-78 | The method is the leading run of non-space bytes, at most 9 of them, and the cursor is left after it. The mode is GET or POST exactly when the name equals that word ignoring case. No other field changes. |
| RequestParser.GetUrlFromStr | src/http_functions.c:80-100 | After the spaces, the URL token (at most 1023 bytes) is copied. A GET keeps the part before '?' as the URL and the rest as the query. |
| RequestParser.GetVersionFromStr | src/http_functions.c:102-110 | After the spaces, the version token (at most 9 bytes) is copied. |
| RequestParser.GetFirstHeader | src/http_functions.c:112-132 | It reads one framed line and parses the request line from it. It returns -1 exactly when the method is neither GET nor POST, and in that case it writes the 501 response. |
| RequestParser.RequestLineRoundTrip | src/http_functions.c:112-132 | A Request-Line "Method SP Request-URI SP HTTP-Version" (section 5.1 of RFC 1945) parses back to its method. Unless the request is refused, it also parses back to its URL, split at '?' for GET, and to its version. |
| RequestParser.ParseHeaderLine | src/http_functions.c:146-187 | The scan of one stored line computes HeaderStep and changes only alive, boundary and length. Alive ends up set exactly when it was already set or the line is Connection: keep-alive. |
| RequestParser.ParseContentType | src/http_functions.c:162-177 | The boundary is set to the text after '=' exactly when the media type before ';' is multipart/form-data. |
| RequestParser.GetOtherHeaders | src/http_functions.c:134-190 | The header loop reads until the stream is empty and leaves the record that Drain computes from the remaining lines. |
| RequestParser.ParseHttpHeader | src/http_functions.c:192-198 | A refused method returns -1 with the 501 response and leaves the headers unread. Otherwise it returns 0, with the request line parsed and the rest of the stream drained into the record. |
| RequestParser.DrainKeepsRequestLine | src/http_functions.c:134-190 | The header loop changes only alive, boundary and length, and once alive is set it stays set. |
| RequestParser.HeaderBlockDrain | src/http_functions.c:134-190 | A header block of "Name: value\r\n" fields drains to the record that applies the fields in order. |
| RequestParser.BlankLineDrain | src/http_functions.c:134-190 | The empty line "\r\n" is parsed like any other line and changes nothing. |
| RequestParser.ContentTypeNoSemicolon | src/http_functions.c:162-177 | A Content-Type field without ';' leaves the boundary unchanged. |
| RequestParser.LastValue | src/http_functions.c:146-187 | There is a value exactly when some field has that name, ignoring case. |
| RequestParser.ApplyFieldsAlive | src/http_functions.c:152-161 | After the header block, alive is set exactly when it was set before or some field is Connection: keep-alive. |
| RequestParser.ApplyFieldsLength | src/http_functions.c:178-185 | The length is atoi of the last Content-Length value. Without one, it is what the record held before. |
| RequestParser.ApplyFieldsBoundary | src/http_functions.c:162-177 | The boundary is the one from the last multipart Content-Type field. Without one, it is what the record held before. |
| RequestParser.RequestHeadParse | src/http_functions.c:192-198 | A whole request head (the request line, then CRLF header fields) is read as the request line followed by the header block. The block yields the record with the fields applied in order. |
| MultipartUpload.GetStartAndEndBoundary | src/http_functions.c:288-297 | The markers are "--" + boundary + "\n" and "--" + boundary + "--\n", and both fit the line buffer. |
| MultipartUpload.Markers | src/http_functions.c:288-297 | The two markers differ from each other and from "\n". Each marker determines its boundary. |
| MultipartUpload.ReceiveBody | src/http_functions.c:326-346 | The receive loop ends with the outcome that Scan computes over the framed lines of the stream. |
| MultipartUpload.RecvFileFromClient | src/http_functions.c:299-349 | It gives the RecvOutcome of the stream. It writes a 500 for a refused upload and a 200 for a stored one, and nothing when the loop stalls. |
| MultipartUpload.ScanFile | src/http_functions.c:326-346 | The file holds the lines read before the byte budget runs out or the end marker is seen. Writing starts at the first "\n" line and start markers are skipped. |
| MultipartUpload.ScanStalls | src/http_functions.c:327-334 | The loop never ends exactly when some bytes arrive, fewer than Content-Length, and no end marker comes. |
| MultipartUpload.RecvOutcomeMeaning | src/http_functions.c:299-349 | An upload is refused exactly when the length is 0 for a POST or the file cannot be created. Otherwise the file is the payload after the blank line and before the end marker. |
| MultipartUpload.DrainedUpload | src/http_functions.c:327-334 | With nothing left to read and a non-zero length, the empty reads end the loop and an empty file is stored. |
| PostIngest.Strncpy | src/httpd.c:151-153 | The first n bytes of the source are copied and the rest of the buffer is kept. |
| PostIngest.Strncat | src/httpd.c:152-155 | It appends at most n bytes of the source after the existing string, within the buffer. |
| PostIngest.SetBoundary | src/httpd.c:148-155 | The markers are built in 128-byte buffers. There is no result when a strncat would overflow. |
| PostIngest.ParsePostHeaders | src/httpd.c:143-160 | The loop over evhttp's header list computes WalkHeaders of the fields. |
| PostIngest.SingleBoundary | src/httpd.c:147-155 | For a boundary that fits, the two markers are the same strings recv_file_from_client uses. |
| PostIngest.WalkLength | src/httpd.c:156-158 | The content length is atoi of the last Content-Length field, or 0 without one. |
| PostIngest.UploadHeaders | src/httpd.c:143-160 | For one Content-Type field with "boundary=", the markers are built from the text after it. The length comes from the Content-Length fields. |
| PostIngest.ReadBody | src/httpd.c:169-194 | The body loop computes Ingest over the framed lines of the input buffer. |
| PostIngest.HandlePostHelper | src/httpd.c:131-198 | It returns -1 exactly when the file cannot be opened, and then replies 500. A saved upload returns 0 and replies 200 with no body. |
| PostIngest.PostReplies | src/httpd.c:163-197 | A refused upload gives a single 500 error and a saved one a single 200 reply. |
| PostIngest.DataTurn | src/httpd.c:174-181 | While data is expected, each line is written and its length is subtracted. The line that drives the count negative loses its last byte. |
| PostIngest.HeaderTurn | src/httpd.c:189-193 | A line containing "Content-Type:" consumes the next line. The data estimate becomes Content-Length minus the bytes read, the end marker's length and 3. |
| PostIngest.UploadStored | src/httpd.c:169-194 | For a single-part body whose data lines end in '\n', the saved file is exactly the data without its final CRLF. |
| PostIngest.PostUpload | src/httpd.c:131-198 | For a request whose headers carry a fitting boundary and the exact Content-Length, the upload is saved with exactly the data and answered 200. |
| PostIngest.CrlfTwoLines | src/httpd.c:174-181 | For data "l1\r\nl2" the file is l1 "\n" l2 "\n". Both CRs are dropped, and the last line keeps a '\n' that was framing, not data. |
| PostIngest.CrlfThreeLines | src/httpd.c:174-181 | With three CRLF data lines, the estimate runs past the data and the closing marker is written into the file. |
| PostIngest.MarkerWritten | src/httpd.c:174-181 | A closing marker read while data is still expected is written to the file. |
| Paths.SuffixAfterLast | src/http_functions.c:200-207 | The result is the text after the last separator, and it contains no separator except possibly the final byte, which the backward scan never examines. With no earlier separator it is the whole string. |
| Paths.GetCurrentDirectory | src/http_functions.c:200-207 | The backward scan returns the text after the last '/'. |
| Paths.GetFileExtension | src/http_functions.c:258-265 | The backward scan returns the text after the last '.'. |
| Paths.FilePathOnServer | src/http_functions.c:351-356 | The path is the root followed by the URL, with "index.html" appended only for "/". It fits the 512-byte buffer. |
| Paths.FilePathAliases | src/http_functions.c:351-356 | Two URLs map to the same file exactly when they are equal or are "/" and "/index.html". |
| Paths.RequestWholePathJoin | src/httpd.c:395-403 | The buffer is sized so that snprintf never truncates. The path is docroot + "/" + the decoded path without its leading '/', and that part has no ".." when the decoded path has none. |
| Paths.WholePathsCompared | src/httpd.h:322-327 | send_document_cb keeps the leading '/', giving "docroot//path". handle_request_cb drops it. |
| Paths.DotDotExamples | src/httpd.c:392 | The substring test rejects "/this/one..here" and "/../etc/passwd" and admits "/docs/a.b/c". |
| ContentType.Lookup | src/httpd.c:11-14 | There is an entry exactly when some table extension equals the extension ignoring case, and the type is that of the first such entry. |
| ContentType.Extension | src/httpd.h:59-65 | It is the text after the last '.', and there is none when no '.' exists or a '/' follows the last one. |
| ContentType.GuessContentType | src/httpd.c:4-18 | The table search gives ContentTypeOf the path. |
| ContentType.SearchTable | src/httpd.c:11-14 | The loop over the table returns the first case-insensitive match, and none when no entry matches. |
| ContentType.ContentTypeMeaning | src/httpd.h:29-73 | The type is not application/misc exactly when the path has an extension listed in the table. It is then the type of the first matching entry. |
| ContentType.TypesNotMisc | src/httpd.h:29-46 | No table entry maps to application/misc, so that answer always means "not found". |
| ContentType.DirectoryDotExample | src/httpd.h:62-64 | A '.' in a directory name is not an extension: "v1.2/README" is application/misc. |
| Evhttp.CommandName | src/httpd.c:200-237 | The name is "unknown" exactly for a command outside the nine evhttp knows. |
| Evhttp.CommandNamesDistinct | src/httpd.h:219-256 | Different commands have different names. |
| FileServer.Shown | src/http_functions.c:232-241 | A name is listed exactly when it is in the directory and is not ".", ".." or ".DS_Store". |
| FileServer.ListingShown | src/http_functions.c:232-241 | The listing of all names equals the listing of the shown names. |
| FileServer.WriteEntries | src/http_functions.c:232-241 | The readdir loop appends the listing of the names, in order, with the hidden names skipped. |
| FileServer.SendDirectoryToClient | src/http_functions.c:209-246 | A directory that cannot be opened gives 403 for EACCES and 500 otherwise. An opened one gives the 200 header, the page head, one line per shown entry and the page end. |
| FileServer.SendFileToClient | src/http_functions.c:267-286 | A failing second stat writes 500. Otherwise the file is streamed with its size and extension. |
| FileServer.GetReply | src/http_functions.c:379-390 | Only a regular file that stats again is streamed, with the extension of its path. |
| FileServer.ServeGet | src/http_functions.c:379-390 | The GET branch writes what GetReply gives and has its effect. Only a regular file that stats again is streamed; every other case is answered on the socket. |
| FileServer.ReadRequest | src/http_functions.c:366-371 | A request is accepted exactly when the method is GET or POST, and then the whole stream is consumed. A refused one writes 501. |
| FileServer.DoAcceptCb | src/http_functions.c:358-400 | A refused method gets 501. A GET serves FilePathOnServer of the URL. A POST runs the upload on the drained stream. |
| FileServer.PostFindsStreamDrained | src/http_functions.c:392-394 | An upload through do_accept_cb sees an empty body. It gives 500 when the length is 0 or the file cannot be created, and otherwise stores an empty file with 200. |
| EventServer.TrailingSlash | src/httpd.c:279-280 | A "/" is added exactly when the path does not already end in '/', so the base href always ends in '/'. |
| EventServer.Listed | src/httpd.c:295-302 | A name is listed exactly when it is in the directory and is not "." or "..". |
| EventServer.PlanSegments | src/httpd.c:329-336 | Every chunk is a file segment that is non-empty and at most CHUNK_SIZE. There are no chunks exactly when nothing is left to send. |
| EventServer.PlanOffsets | src/httpd.c:329-336 | Chunk i starts at offset i * CHUNK_SIZE. |
| EventServer.PlanContiguous | src/httpd.c:329-336 | Every chunk but the last is full, the last ends at the file size, and the lengths sum to the bytes left. |
| EventServer.SendFileByChunks | src/httpd.c:329-336 | The offset loop sends exactly the chunks of the plan. |
| EventServer.SendListing | src/httpd.c:295-302 | The readdir loop sends one chunk per entry other than "." and "..", in order. |
| EventServer.HandleGetHelper | src/httpd.c:259-348 | The helper's return value and events are those of GetReplies. |
| EventServer.GetRepliesFramed | src/httpd.c:259-348 | It returns 1 with a single 404 exactly when stat, opendir, open or fstat fails. Otherwise it returns 0 with a Content-Type header, a 200 start, chunks and an end. |
| EventServer.FileChunksCover | src/httpd.c:310-336 | A file is sent with the guessed content type in chunks that cover it exactly. |
| EventServer.ListingItemsShown | src/httpd.c:285-304 | A listing has five fixed events around its items. It carries an item chunk exactly for each directory name that is not "." or "..". |
| EventServer.HandleRequestCb | src/httpd.c:350-429 | An unknown method gets 405 and a bad URI 400. A failed decode, a path with "..", or a failed malloc gets 404. Otherwise the whole path is docroot + "/" + the relative path, which has no "..". A POST gets the outcome and replies of handle_post_helper, a GET the replies of handle_get_helper, and any other method 501. |
| EventServer.UnknownIsOther | src/httpd.c:360 | The method test against "unknown" catches exactly the commands outside the nine known ones. |
| EventServer.AddEntries | src/httpd.h:365-369 | The older listing has one item per entry, dot entries included. |
| EventServer.SendDocumentCb | src/httpd.h:280-411 | A method other than GET gets 200 from dump_request_cb. A bad URI gets 400. A failed decode, a ".." or a failed malloc gets 404. Otherwise the whole path is docroot + "/" + the decoded path, with its leading '/' kept, and the answer is the single reply of DocumentReplies. |
| EventServer.ListingsCompared | src/httpd.h:365-369 | The chunked listing shows a subset of what send_document_cb lists. The two agree when there are no dot entries. |
| ThreadServer.NotFound | http_server.c:82-102 | It writes the canned 404 lines joined by CRLF. |
| ThreadServer.Unimplemented | http_server.c:104-122 | It writes the canned 501 lines joined by CRLF. |
| ThreadServer.SendResponseHeaders | http_server.c:124-141 | It writes the canned 200 header lines joined by CRLF. |
| ThreadServer.HeadersAsHttpOk | http_server.c:124-141 | The canned 200 header is byte for byte the response http_ok writes. |
| ThreadServer.NotFoundHeadersShared | http_server.c:82-102 | The first four canned 404 lines are the 404 header block of src/http_response.c. |
| ThreadServer.UnimplementedHeadersShared | http_server.c:104-122 | The first four canned 501 lines are the 501 header block of src/http_response.c. |
| ThreadServer.DiscardHeaders | http_server.c:157-163 | The discard loop reads lines until an empty read or a line that is just "\n", and consumes Discarded bytes. |
| ThreadServer.DiscardHeaderBlock | http_server.c:214-217 | For a CRLF header block, the discard loop stops right after the empty line. |
| ThreadServer.GetMethodFromStr | http_server.c:51-59 | The method is the leading non-space run of at most 14 bytes, and its length is returned. |
| ThreadServer.GetUrlFromStr | http_server.c:61-80 | After the spaces, at most 254 URL bytes are copied. A GET is cut at '?' and returns the query; other methods return no query. |
| ThreadServer.ServerPath | http_server.c:209-212 | The path starts with "htmldoc", followed by the URL, with "index.html" added after a final '/'. |
| ThreadServer.TargetPath | http_server.c:205-212 | The path of an accepted request is ServerPath of its URL. |
| ThreadServer.AcceptRequestHandler | http_server.c:176-237 | A method other than GET and POST gets the 501 lines without closing the connection. A failed stat discards the headers and sends 404. A GET discards the headers and sends the 200 lines, with "/index.html" added for a directory. A POST does nothing. Every accepted request is closed. |
| ThreadServer.TraversalUnchecked | http_server.c:209-214 | A URL with "/../" is mapped outside htmldoc unchanged. |

## Left out

- The listening sockets, the libevent reactor, threads and TLS are left out. This covers `http_init`, `main`, `pthread` and the `bevcb`/`display_listen_sock`/`do_term` callbacks in `src/httpd.c` and `src/https_main.c`. Connections are given as their input bytes.
- Command-line parsing (`parse_opts`, `print_usage`) is left out, because it only fills the port and docroot.
- libevent's own URI parsing and percent-decoding are inputs. `evhttp_uri_parse`, `evhttp_uri_get_path` and `evhttp_uridecode` are given as their results (the `Uri` value and the decoded path).
- Filesystem results are inputs:
  - whether `stat` succeeds and what kind of node it reports;
  - the `readdir` names;
  - whether `opendir`, `fopen`, `open`, `fstat` and `malloc` succeed.
- The file bytes are not modelled. `send_file` (both versions), `http_ok_send_file` and `evbuffer_add_file` are recorded as a `Streamed` effect or as chunk segments (offset, length).
- Logging (`logger`) is left out; it has no effect on replies.
- `dump_request_cb` is recorded only as the 200 reply it sends. The header dump it prints is left out.
- `client.c` and `htdocs/save_file.py` are clients, not part of the server.
- The stub `handle_request_cb` in `src/httpd.h:258-278` is left out. It is never registered, and the working version in `src/httpd.c` is modelled.
- The configuration constants are parameters:
  - `SERVER_ROOT_DIR` of `do_accept_cb`;
  - `CHUNK_SIZE`;
  - the four-argument `HTML_BEFORE_BODY` template of `src/httpd.c`.
- The bufferevent server's calls are modelled as writes to the client connection, which is their evident intent but not what the C code does:
  - It passes its `bfevent_t*` to the responders of `src/http_response.c`, which are declared with an `int client` socket (`src/http_response.h:32-40`). The calls are at `src/http_functions.c:122`, `:217-224`, `:275-283`, `:308-347` and `:381-396`.
  - It calls `http_ok_send_file(client, st.st_size, extension)` (`src/http_functions.c:280`) with three arguments. The prototype (`src/http_response.h:33`) takes two, and `src/http_response.c` defines no such function.
  - The model takes these calls as appending the response to the client's output, or, for `http_ok_send_file`, as the `Streamed` effect. This applies to `RequestParser.GetFirstHeader`, `MultipartUpload.RecvFileFromClient` and the `FileServer` members. What such a build would actually do with a `bfevent_t*` used as a socket descriptor is not modelled.
- C undefined behaviour is a precondition. Inputs that lead to it are not modelled:
  - scanning a token past its buffer;
  - `strstr` finding no "boundary=";
  - a `strncat` overflow;
  - `fclose(NULL)` after a failed `fopen`;
  - writing `cbuf[-1]` for an empty line.
- PostIngest.HandlePostHelper: the path where an empty line is written during the data phase is undefined behaviour, so no outcome is given for it.
- MultipartUpload.RecvFileFromClient: a loop that never terminates is modelled as the `Stalled` outcome. Every later read returns 0 and the handler never replies.
- CString.Atoi: C's `int` overflow for very long digit runs is not modelled; the value is the mathematical one.
- ThreadServer.AcceptRequestHandler: the `recv_file_from_client` it calls for POST is empty in `http_server.c`, and the model records only that nothing is written.
