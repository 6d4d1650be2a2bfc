# restraint client core in Dafny

This project models two sequential parts of the restraint client.

**The multipart client protocol (src/multipart.c).**
- `handshake_io_cb` is the handshake over the pipes of the remote command. It waits for the server's `User-Agent: restraint/` greeting and posts the job. It then collects the response header up to the blank line, moves to `RUN` and starts the part reader.
- `post_data` frames the request: a POST header with a Content-Length, then the data and the `--<boundary>` delimiter.
- `next_part_cb`, `multipart_read_headers` and `read_cb` form the loop over the parts of the reply. For each part they:
  - take `rstrnt-method` and `rstrnt-path` from the part headers;
  - collect the body chunks in a fresh buffer;
  - call the callback once when a read returns no bytes;
  - then ask for the next part, or close the base stream once an error is recorded.
- `handshake_pid_callback` and `multipart_destroy` are the teardown when the child exits.

**The testinfo reader (src/metadata.c).**
- `file_parse_data` cuts reads of any size into lines in a parse buffer.
- `flush_parse_buffer` hands each completed line to `parse_line`.
- `parse_line` splits a line at its first `:` and updates the `TESTTIME`, `NAME`, `REQUIRES` or `REPOREQUIRES` field of a MetaData record.
- The read loop and final flush of `parse_testinfo_from_fd` drive the three.

Both sources work in place, so the model has two layers.
- **Pure functions** say what one callback or one step does: `Update`, `Flush`, `Feed` and `ParseTestInfo`; `Request`, `Step`, `OnNextPartStep`, `OnReadStep` and `Teardown`.
- **Classes and methods** do the same work the way the C code does. `MetaData`, `ParseBuffer`, `MultiPartData` and `HandshakeData` hold fields that the methods update, and each method is proved against its function.

The properties are proved as lemmas over the functions. They cover:
- chunking independence of the reader and its agreement with a line-by-line reading of the file;
- the framing round trip of the request;
- the handshake invariant and what it takes to reach `RUN`;
- the delivery of whole parts in order;
- the finality of errors.

Files:
- `wrappers.dfy`: Option and Result.
- `errors.dfy`: the RestraintError codes of src/errors.h and the error values.
- `text.dfy`: the GLib string helpers the parser uses (`g_strstrip`, `g_ascii_strup`, `g_strsplit`, `g_strsplit_set`, `%zu`).
- `metadata.dfy`: the testinfo reader.
- `multipart.dfy`: the client protocol.

## Model

| member | source | states |
|---|---|---|
| Text.Strip | src/metadata.c:192-193 | The result has no ASCII whitespace at either end. A string that is already stripped comes back unchanged. |
| Text.StripPadded | src/metadata.c:192-193 | Whitespace added around a text does not change what stripping gives. |
| Text.StripIdempotent | src/metadata.c:206 | Stripping twice is stripping once (NAME strips its already-stripped value again). |
| Text.UpperChar | src/metadata.c:192 | a to z map to A to Z (code minus 32). Every other character is kept, and no lower-case ASCII letter is left. |
| Text.AsciiUpper | src/metadata.c:192 | Every character is upper-cased in place. The length is kept. |
| Text.UpperIgnoresCase | src/metadata.c:192 | Two strings that are equal up to ASCII case upper-case to the same key. |
| Text.SplitFirstAtFirst | src/metadata.c:191 | `g_strsplit (line, ":", 2)` cuts at the first `:` only. Later `:` characters stay in the second piece. |
| Text.SplitJoin | src/metadata.c:208 | Splitting a join of separator-free tokens at the separators gives the tokens back. |
| Text.JoinSplit | src/metadata.c:257-290 | Cutting a text at every LF loses nothing: joining the pieces restores it. |
| Text.DecimalRoundTrip | src/multipart.c:219 | The `%zu` numeral of a number reads back as that number. |
| Metadata.Update | src/metadata.c:196-221 | A line fails only for TESTTIME, or for a REQUIRES or REPOREQUIRES with no value. Each field changes only under its own key. Any other key leaves the record as it was. |
| Metadata.KeysMatchIgnoringCase | src/metadata.c:191-196 | Keys that differ only in ASCII case or surrounding whitespace update the record identically. |
| Metadata.TestTimeSetsMaxTime | src/metadata.c:196-204 | TESTTIME sets max_time to the parsed value. When parsing fails, that error is returned and the record is untouched. |
| Metadata.NameSetsName | src/metadata.c:205-206 | NAME sets the name to the stripped value. |
| Metadata.RequiresPrependsInReverse | src/metadata.c:207-217 | A REQUIRES value t1,...,tn, with whitespace around it and a run of commas and spaces of its own in each gap (as in `gcc, make,bison`, `a,b c`, `,a` or `a,`), puts the non-empty tokens in front of the dependencies already recorded, tn first. The empty tokens that adjacent, leading or trailing separators give are skipped. |
| Metadata.SplitJoinRuns | src/metadata.c:208-215 | Tokens joined by runs of commas and spaces, one run in each gap, split back into the same non-empty tokens. The only extra pieces are empty ones. |
| Metadata.PrependEachReverses | src/metadata.c:210-215 | Prepending the non-empty tokens one at a time leaves them reversed in front of the old list. Empty tokens are dropped. |
| Metadata.RepoRequiresKeepsValueWhole | src/metadata.c:218-220 | REPOREQUIRES prepends the whole value as one entry, commas and spaces included. |
| Metadata.PrependTokens | src/metadata.c:208-215 | The token loop of parse_line yields the reversed non-empty tokens in front of the dependencies. |
| Metadata.ApplyLine | src/metadata.c:182-224 | A line can fail only under TESTTIME, or under REQUIRES or REPOREQUIRES when it has no `:` at all. A line whose key is none of the four leaves the record as it was. |
| Metadata.MetaData.ParseLine | src/metadata.c:182-224 | The record after the call is what Update gives for the line's key and value. A failing line changes nothing and returns the error. |
| Metadata.MetaData.UpdateField | src/metadata.c:196-221 | The new record and error are those Update gives. A failing key changes no field. |
| Metadata.Flush | src/metadata.c:226-240 | The buffer is empty afterwards, even when the line fails. An empty buffer changes nothing. A failing line leaves the record as it was. |
| Metadata.FlushParseBuffer | src/metadata.c:226-240 | The new record, buffer and error are those of Flush. |
| Metadata.DropCR | src/metadata.c:260-263 | A line ending in CR loses exactly that one CR, and keeps any CR before it. Any other line is unchanged. |
| Metadata.EndOfLine | src/metadata.c:258-273 | At a LF the buffer ends up empty. A blank line, or one holding only a CR, changes nothing else. Any other line is parsed without its trailing CR, and a failing one leaves the record as it was. |
| Metadata.Feed | src/metadata.c:242-291 | Once an error is recorded, no data changes anything. The buffer never holds a LF. |
| Metadata.NextNewline | src/metadata.c:279-285 | Gives the position of the first LF at or after i, or the end of the data. No LF lies before that position. |
| Metadata.FeedAppend | src/metadata.c:242-291 | Feeding two pieces one after the other equals feeding their concatenation. How the input is cut into reads makes no difference. |
| Metadata.FeedRun | src/metadata.c:274-289 | Text without a LF only grows the parse buffer, so a new error can only arise at a LF. |
| Metadata.FileParseData | src/metadata.c:242-291 | The in-place index loop ends in the state Feed gives: same record, same buffer, same first error. |
| Metadata.UntilEof | src/metadata.c:318-322 | The reads taken are the non-empty prefix of the reads, up to the first read of 0 bytes. |
| Metadata.Finish | src/metadata.c:341-354 | A recorded error is returned. Otherwise the buffer left over is parsed as the last line, as it is, with no CR dropped; an empty buffer returns the record. |
| Metadata.ParseTestInfo | src/metadata.c:293-355 | A file that is not a regular file fails with RESTRAINT_OPEN, "Not a regular file". An empty file gives the zeroed MetaData. |
| Metadata.FeedIsLineByLine | src/metadata.c:257-290 | Feeding text after a partial line agrees with parsing the pieces between LFs one line at a time. So a line split across reads is parsed once, as a whole. |
| Metadata.ParseTestInfoIsLineByLine | src/metadata.c:318-352 | The whole file, read in any chunks, parses as its text read line by line. A final unterminated line is parsed by the closing flush. |
| Metadata.ParseTestInfoFromFd | src/metadata.c:293-355 | The read loop and final flush return what ParseTestInfo gives. A non-regular file fails with RESTRAINT_OPEN before anything is read. The first failing line stops the parse. |
| Multipart.GetOne | src/multipart.c:152-153 | A header's value when it is present, NULL otherwise. |
| Multipart.RequestHeader | src/multipart.c:219 | The header opens with the request line and its LF, and ends with CR LF CR LF: the line ends and the empty line that closes it. |
| Multipart.RequestBody | src/multipart.c:221-224 | The data, then `--`, the boundary and a LF: strlen(boundary) + 3 bytes more than the data. |
| Multipart.Request | src/multipart.c:215-225 | Everything written is the header followed by exactly data_len + strlen(boundary) + 3 bytes, the length the header declares. |
| Multipart.ContentLengthDeclaresBody | src/multipart.c:215-225 | Reading the request back gives a Content-Length equal to the number of bytes written after the blank line. That body is the data followed by `--<boundary>` and a LF. |
| Multipart.FramingReadsBack | src/multipart.c:219 | A header with request line, Content-Length line, Content-Type line and blank line reads back as the declared number and the body after it. |
| Multipart.Step | src/multipart.c:227-290 | AGAIN keeps the watch with nothing changed. ERROR, EOF and a wake-up without G_IO_IN remove the watch with nothing changed. In HANDSHAKE a greeting writes the request and moves to READ_HEADER, and any other line is dropped; the watch stays. In READ_HEADER a line with a terminator past position 0 is appended to the response, and a blank line moves to RUN, starts the reader and removes the watch. In RUN a line changes nothing. No other state change happens. |
| Multipart.Negotiate | src/multipart.c:227-290 | Over a sequence of wake-ups, a session already in RUN is never changed. Reaching RUN starts the reader exactly once and removes the watch. Short of RUN the reader is not started. |
| Multipart.RequestWrittenAtMostOnce | src/multipart.c:239-248 | Over any sequence of wake-ups, three things hold. Nothing is written before the greeting and exactly one request after it. The reader is started exactly when RUN is reached. RUNNING is never entered. |
| Multipart.LeavesHandshakeOnGreeting | src/multipart.c:239-248 | HANDSHAKE is left only if some event was a greeting line. |
| Multipart.PostsOnGreeting | src/multipart.c:239-248 | In HANDSHAKE, lines other than the greeting are dropped, and the greeting then writes exactly one request and moves to READ_HEADER, with the watch kept. |
| Multipart.WaitsForGreeting | src/multipart.c:239-248 | Lines other than the greeting are dropped in HANDSHAKE, and the watch stays. |
| Multipart.RunNeedsBlankLine | src/multipart.c:249-263 | RUN is reached only through a line with terminator position 0. Reaching it removes the watch. |
| Multipart.ResponseCollectedInOrder | src/multipart.c:249-267 | In READ_HEADER the header lines are appended to response_str in arrival order. The blank line moves to RUN, starts the reader once and ends the watch, so later lines are never read. |
| Multipart.Begin | src/multipart.c:198-213 | The first part is requested, and nothing else changes. |
| Multipart.HeaderAfter | src/multipart.c:150-154 | With a header object, the method (or path) is the rstrnt-method (or rstrnt-path) header, or NULL when that header is absent. Without one, the value of the part before is kept. |
| Multipart.OnNextPartStep | src/multipart.c:161-196 | With no next part, an error (if any) is recorded and the base stream is closed; nothing else changes. With a part, its headers are kept and a fresh empty buffer is made. Method and path come from the part's headers, or stay as they were when the part has no header object. |
| Multipart.MultiPartData.ReadHeaders | src/multipart.c:147-155 | Headers are stored. Method and path are read from them only when they are not NULL. |
| Multipart.MultiPartData.OnNextPart | src/multipart.c:161-196 | The new fields are those of OnNextPartStep. |
| Multipart.OnReadStep | src/multipart.c:83-141 | Bytes read are appended to the buffer. A read of 0 bytes or a failing read ends the part: the part stream is closed, and the callback (if any) gets method, path, error, headers and the whole buffer. The buffer is then released, with method, path and headers kept. After that the next part is asked for, or the base stream is closed if an error is recorded. |
| Multipart.MultiPartData.OnRead | src/multipart.c:83-141 | The new fields are those of OnReadStep. |
| Multipart.Deliver | src/multipart.c:83-196 | An event while the base stream is closing, or before the loop is started, changes nothing. Callbacks are only appended. With a callback there is exactly one per part stream closed, and without one there is none. |
| Multipart.Stream | src/multipart.c:83-196 | Over any sequence of events, callbacks are only appended, and each part stream closed gives exactly one callback when there is a callback. |
| Multipart.ChunksAccumulate | src/multipart.c:132-139 | Non-empty chunks are appended to the buffer in order. |
| Multipart.PartDelivered | src/multipart.c:95-130 | A whole part gives exactly one callback. It carries the part's headers, method, path and the concatenation of its chunks. The next part is then requested. |
| Multipart.AllPartsDelivered | src/multipart.c:83-196 | N whole parts give N callbacks, in order, each with its part's body. Method and path carry over from earlier parts where a part has no header object. |
| Multipart.ClosingIsFinal | src/multipart.c:117-124 | Once the base stream is being closed, no event changes anything and nothing more is requested. |
| Multipart.StreamKeepsConsistent | src/multipart.c:171-181 | An error is only ever recorded together with closing the base stream. |
| Multipart.ReadErrorEndsSession | src/multipart.c:92-124 | A failing read still hands the part, with the error, to the callback. It then closes the base stream, and nothing after it has an effect. |
| Multipart.MultiPartData.Start | src/multipart.c:198-213 | The first part is requested. |
| Multipart.HandshakeData.PostData | src/multipart.c:215-225 | The bytes written to f_out grow by exactly Request. |
| Multipart.HandshakeData.OnLine | src/multipart.c:227-290 | The new state and the returned flag are those of Step. The part reader is started exactly on the move to RUN. |
| Multipart.Teardown | src/multipart.c:297-304 | f_in then f_out are closed, each only when it is not -1. -1 is never closed. |
| Multipart.HandshakeData.OnChildExit | src/multipart.c:292-308 | The descriptors closed are those of Teardown, and both become -1. The destroy function (if any) gets the recorded error. Then the error is cleared and both structures are freed. |
| Multipart.MultiPartData.Destroy | src/multipart.c:35-47 | The destroy function (if any) is called once with the recorded error. The error is then cleared and the structure freed. |

For a part with no header object (`soup_multipart_input_stream_get_headers` returns NULL), src/multipart.c:150-154 keeps the previous part's `method` and `path`; the model does the same (`OnNextPartStep`, `HeaderAfter`, `AllPartsDelivered`).

## Left out

- GLib and libsoup plumbing is left out: GIOChannel watches, the asynchronous stream calls, and `close_cb` / `close_base_cb`, which only log. The libsoup multipart boundary scanning is left out too. Their results are event inputs (`Wakeup`, `NextPart`, `ReadResult`), and a stream close is a counter or a pending state.
- `soup_headers_parse_response` (src/multipart.c:252-257) is a foreign parser. Only the accumulated `response_str` is modelled.
- `generate_boundary` (src/multipart.c:11-33) hashes the clock. The boundary is a parameter of the handshake. Framing is proved for any boundary without a LF.
- Process and pipe handling is left out: `piped_child`, the child watch and `multipart_start_async` (src/multipart.c:310-352). The descriptors are constructor parameters.
- `f_in` is also owned by the stream created with close_fd TRUE at src/multipart.c:203. The model logs only the `close` calls of `handshake_pid_callback`. It makes no claim that descriptor cleanup is idempotent.
- Multipart.HandshakeData.PostData: the result of `write` is ignored by the source, and short writes are not modelled. `data_len` is taken to be the length of `data`.
- Multipart.GetOne: libsoup looks header names up case-insensitively; the model's map lookup is exact.
- Multipart.Step: the log output (`g_print`, `g_printerr`, `g_warning`) is not modelled. The `default` case of the status switch (`g_return_val_if_reached`) cannot occur with the four statuses, so it is not modelled either.
- Events that GIO never delivers, such as a read completing while no read is outstanding, are skipped by `Stream` and excluded by the methods' preconditions. Events after teardown are not modelled.
- The `RUNNING` state is never assigned by the code. It exists in `ClientState`, and `Posted` states that it is never reached.
- `restraint_parse_metadata` (src/metadata.c:46-180) is a GKeyFile wrapper and is not part of this model. `restraint_parse_testinfo`, which opens the file, is also not part of this model.
- `parse_time_string` (src/utils.c) is not part of this model. It is the function parameter `parseTime`.
- File I/O of `parse_testinfo_from_fd` is left out. The reads are a sequence of chunks, and an empty chunk (or the end of the sequence) is end of file. A failing `fstat`, read errors and the EINTR/EAGAIN retry are not modelled. `S_ISREG` is the boolean `regularFile`.
- Metadata.MetaData.ParseLine, for a line without `:`: the C code hands a NULL value to `parse_time_string`, `g_strsplit_set` or `strlen`. The model stops the parse with the abstract error `NullValue(key)` for TESTTIME, REQUIRES and REPOREQUIRES. NAME takes a NULL name, and other keys are ignored, as in the code.
- `parse_line` reads the line up to its first NUL byte. Text with embedded NUL bytes is not modelled.
- Memory management is not modelled: `g_free`, `g_slice_free`, `restraint_metadata_free` and the GSList and GString allocations. "Freed" is a flag.
- The GError domains and messages of file errors are not modelled. Errors are `Coded(code, message)` for the RestraintError codes and `Io(message)` for errors from streams and channels.
