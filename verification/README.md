# Verification of the multiplexed servers, the HTTP parser and the redirecting client

This project models the parts of LinuxNetworkProgramming that carry state and proves what they keep.

**The three multiplexed servers.** `run_server` exists over `select`, over `poll`, and over `poll` with TLS.
Each changes a bounded table of clients while it iterates over readiness flags taken earlier. `Sockets.dfy`
is the operating system: every answer it gives is nondeterministic, and `accept` may hand out any positive
descriptor number that is not open, so numbers are reused. Connections are named by numbers that are never
reused, and the kernel logs each call by connection, so a statement such as "this `recv` is on the connection
that `select` reported" is about the connection and not about its number. The log also holds every wait, with
what was watched and what was reported, and every `accept` that failed. That a descriptor is open is a
precondition of `Recv`, `Send` and `Close`, so the servers are also proved never to use a dead one.

- `Connections.dfy` is the abstract machine that all three servers refine: live, closed and turned-away
  connections, changed by events. It holds the theorems about every legal history: conservation, each
  connection closed at most once, no call after a close, and what one iteration does to the live set.
  `Dialogue.dfy` says what the log of system calls alone shows of every client: what is answered, what is
  closed and why, who shakes hands.
- `Rounds.dfy` cuts a history into loop iterations, each beginning with a logged wait (`Split`), states what an
  iteration of each server keeps to, given what that wait watched and reported (`RoundOk`), and that all
  iterations of a run do (`RoundsOk`); `IterationEffect` and `EveryIteration` draw the consequences.
- `SelectServer.dfy`, `PollServer.dfy`, `TlsServer.dfy` are the servers as classes over arrays. Every step
  method is proved equal to a step on a snapshot of the whole state, every step keeps the invariant, and
  every iteration is proved against `RoundOk`. `Slots.dfy` holds the reasoning about a table that shrinks by
  swap-remove while it is swept, `PollTable.dfy` the link between poll entries and such slots,
  `Sessions.dfy` the TLS library and the pairing of its sessions with the poll table, and `Patience.dfy` how
  often a client of the TLS server can be put off over a whole run.

**The HTTP parser and printer.** `Text.dfy` holds the library functions (C strings, `operator>>`, `to_string`,
`stoi`), `HttpParser.dfy` the stream and the parser, proved equal to the function `Parse`; `HttpLaws.dfy` says
what `Parse` means, `HttpMeaning.dfy` what becomes of any start line, header lines and bytes after them; `HttpResponse.dfy` is the printer; `RoundTrip.dfy` and `AnyOrder.dfy` prove exactly when the
two undo each other, for every order in which the header map may be walked.

**The redirecting client.** `HttpClient.dfy` has the send loop, the receive loop, the search for `Location`
and the bounded recursion, for an arbitrary network and arbitrary chunking. The network logs what each host was
sent and what was received from it; `Redirects.dfy` states in literal bytes what that log and the caller's buffer
hold.

Results where the code falls short of what one might expect, with the exact condition where there is one:

- the poll server can receive from a client that `poll` did not report, in two ways. A client moved into a freed
  entry finds that entry's flag (`Slots.StrayClient`): with nobody seated since `poll`, only reported clients are
  received from, whoever hangs up, if and only if they fill the last entries (`Slots.OnlyReportedExactly`). A
  newcomer finds the flag that the last client left in its entry, which `poll` no longer looks at
  (`Slots.StrayNewcomer`, and for every such state `PollServer.StaleFlag`): with a newcomer seated, only reported
  clients are received from if and only if its entry is unflagged and nobody was reported
  (`Slots.OnlyReportedWithNewcomer`);
- the poll server skips a whole sweep when `accept` fails (`Rounds.SkippedSweep`); every reported client is
  received from if and only if this did not happen or nobody was reported (`Rounds.PollComplete`);
- the TLS server can leave a reported client for a later iteration, when a removal moves it behind the sweep
  (`Slots.DeferredClient`); all reported clients are read, whoever hangs up, if and only if no reported entry has so
  many reported entries before it that their removal could shrink the table to it (`Slots.ReadsAllExactly`). Nobody
  starves: in a run of any length a client is put off at most `PATIENCE`, that is 98, times
  (`TlsServer.TlsServer.RunServer`, `Patience.NobodyStarves`), and it can come to that (`Patience.PatienceIsUsedUp`);
- connections that arrive at a full table are never closed (`Connections.TurnedAwayClient`), and only those
  (`Connections.AwayExactly`, `TlsServer.EveryClientClosedOnce`);
- the TLS server closes its listener twice at cleanup (`TlsServer.TlsServer.Cleanup`);
- a stored Content-Length with newlines prints as several lines and can smuggle in a header, which then wins or
  loses depending on the order of the map (`AnyOrder.SmuggledHeader`), and a value that begins with a space loses it
  (`AnyOrder.LeadingSpace`); exactly when printing and parsing gives everything back is `AnyOrder.PrintThenParse`;
- the `HTTPResponse` constructor ignores its arguments.

## Model

| member | source | states |
|---|---|---|
| Connections.Conservation | 00_tutorials/13_multiplexing_poll_client_server.c:123-214 | In every legal run each accepted connection is exactly one of live, closed, turned away, and the table never exceeds its capacity |
| Connections.AcceptedAndClosedOnce | 00_tutorials/12_multiplexing_select_client_server.c:145-231 | In the log of system calls each connection is accepted once, and closed exactly once if it counts as closed, otherwise never |
| Connections.StillOpen | 00_tutorials/12_multiplexing_select_client_server.c:145-231 | A connection is accepted and not closed exactly while it is registered, or for ever if it was turned away at a full table |
| Connections.NoCallAfterClose | 00_tutorials/12_multiplexing_select_client_server.c:174-233 | After a connection has been closed no later receive, send or close names it, even if its descriptor number is reused |
| Connections.RoundEffect | 00_tutorials/13_multiplexing_poll_client_server.c:132-213 | Whatever the order of events in an iteration, it removes exactly the visited clients that hung up and adds exactly the seated newcomers, who were never seen before; those that hung up are the ones from which nothing came, whose text was quit or exit (alone or before a NUL), or, in clear text, whose answer failed |
| Dialogue.SpeaksClearText | 00_tutorials/13_multiplexing_poll_client_server.c:167-212 | In the call log of every legal clear-text history each receipt of data is followed by an answer to that client, and by its close exactly if the answer failed or the text was quit or exit; a receipt of nothing is followed by the close; nothing else is sent or closed |
| Dialogue.SpeaksTls | 01_networking_libraries/openssl/src/ssl_client_server.c:227-303 | In the call log of every TLS history each read is followed by the close of that client exactly if nothing came or the text was quit or exit, and otherwise by an answer; nothing else is sent; a failed handshake is followed by the close |
| Dialogue.ShakesHandsOnce | 01_networking_libraries/openssl/src/ssl_client_server.c:240-263 | Over TLS every accepted connection makes exactly one handshake, unless it was turned away |
| Connections.AwayExactly | 00_tutorials/13_multiplexing_poll_client_server.c:151-157 | In every legal run a connection is turned away exactly if the table was full when it arrived |
| Connections.TurnedAwayClient | 00_tutorials/12_multiplexing_select_client_server.c:161-170 | A run that fills the table, after which the next client is accepted, not registered and never closed |
| Rounds.EveryWaitIsARound | 00_tutorials/12_multiplexing_select_client_server.c:127-131 | In every run the iterations are the logged waits: as many, in the same order, with the same answers |
| Rounds.RoundsMeet | 00_tutorials/12_multiplexing_select_client_server.c:127-237 | An iteration is its wait and what happened until the next one; the iterations follow one another without gap |
| Rounds.IterationEffect | 01_networking_libraries/openssl/src/ssl_client_server.c:212-310 | For all three servers: live clients after an iteration are those before, minus exactly those that hung up, plus at most one newcomer, who comes only if the listener was reported; capacity holds; a reported client that was not visited is still there |
| Rounds.EveryIteration | 00_tutorials/13_multiplexing_poll_client_server.c:123-214 | The same for every iteration of every run, where reported is what the logged wait answered |
| Rounds.PollComplete | 00_tutorials/13_multiplexing_poll_client_server.c:123-213 | In every iteration of every run the poll server receives from every reported client if and only if accept did not fail in it or nobody was reported; if it failed, nothing else happened |
| Rounds.SkippedSweep | 00_tutorials/13_multiplexing_poll_client_server.c:137-141 | A legal iteration in which a reported client is not received from because accept failed |
| Rounds.AwayAt | 00_tutorials/12_multiplexing_select_client_server.c:161-170 | Turned away exactly if 100 clients are registered with the select server on arrival, 99 with the poll and TLS servers |
| SelectServer.RegisteredCount | 00_tutorials/12_multiplexing_select_client_server.c:161-170 | There is a free slot exactly when fewer clients are registered than there are slots |
| SelectServer.AdmittedShape | 00_tutorials/12_multiplexing_select_client_server.c:161-170 | Accepting keeps the agreement of watched set, slots and high-water mark, and registers the newcomer exactly if a slot was free |
| SelectServer.VisitedShape | 00_tutorials/12_multiplexing_select_client_server.c:174-233 | A visit keeps the same agreement and unregisters the client exactly if it hung up |
| SelectServer.SelectMeans | 00_tutorials/12_multiplexing_select_client_server.c:129-131 | With the high-water mark as its bound, select watches the listener and every registered client |
| SelectServer.SelectServer.constructor | 00_tutorials/12_multiplexing_select_client_server.c:119-126 | The invariant holds at the start: only the listener is watched and no slot is used |
| SelectServer.SelectServer.FindSlot | 00_tutorials/12_multiplexing_select_client_server.c:190-197 | The loops over the slots find the first slot that holds a value |
| SelectServer.SelectServer.AcceptClient | 00_tutorials/12_multiplexing_select_client_server.c:143-171 | The whole new state: first free slot filled, descriptor watched, high-water mark raised, or nothing registered when full, or only the failure logged when accept fails |
| SelectServer.SelectServer.VisitClient | 00_tutorials/12_multiplexing_select_client_server.c:175-233 | The whole new state, and in literal terms the calls made: receive, then send if something came, then close, unwatch and free the slot exactly if nothing came, the send failed, or the text was quit or exit |
| SelectServer.SelectServer.Sweep | 00_tutorials/12_multiplexing_select_client_server.c:137-236 | The connections received from are exactly those behind the reported descriptors at the time select returned, each once, although the sweep closes and accepts descriptors and its bound grows; the high-water mark never falls |
| SelectServer.SelectServer.Select | 00_tutorials/12_multiplexing_select_client_server.c:129-135 | The wait watches the listener and all clients; its answer is the one logged, also when select fails and the read set is the whole watched set |
| SelectServer.SelectServer.Iterate | 00_tutorials/12_multiplexing_select_client_server.c:127-237 | One iteration is a logged wait that watches the listener and all clients, one accept exactly if the listener was reported, and one receive from each reported client and from nobody else; the invariant is kept |
| SelectServer.SelectServer.RunServer | 00_tutorials/12_multiplexing_select_client_server.c:115-237 | A run of n iterations makes n waits, each iteration is as RoundOk says about the answer of its own wait, the invariant holds, the history is a legal run of the abstract machine that explains every system call, and the call log keeps to the clear-text dialogue |
| PollServer.PollServer.constructor | 00_tutorials/13_multiplexing_poll_client_server.c:115-121 | The invariant holds at the start |
| PollServer.PollServer.AcceptClient | 00_tutorials/13_multiplexing_poll_client_server.c:134-158 | The whole new state: the newcomer takes the first unused entry and the flag left there, or stays outside a full table, or accept failed and only that is logged |
| PollServer.PollServer.VisitClient | 00_tutorials/13_multiplexing_poll_client_server.c:163-212 | The whole new state, and in literal terms the calls made: receive, then send if something came, then close exactly if nothing came, the send failed, or the text was quit or exit; on a close the last descriptor moves into the entry, under that entry's flag |
| PollServer.PollServer.Sweep | 00_tutorials/13_multiplexing_poll_client_server.c:161-213 | Every flagged client is received from exactly once whatever clients are removed on the way; the clients received from, in order, are those of SweepOrder and the table left is that of AfterSweep; unflagged ones are at most one for each removal |
| PollServer.PollServer.Poll | 00_tutorials/13_multiplexing_poll_client_server.c:125-130 | The wait watches the listener and all clients; its answer is the one logged and matches the flags it leaves |
| PollServer.PollServer.Iterate | 00_tutorials/13_multiplexing_poll_client_server.c:125-213 | One iteration is a logged wait for the listener and all clients and one accept exactly if the listener was reported; if that failed nothing else, otherwise the clients received from, in order, are those of SweepOrder on the polled table and the newcomer, with every reported client among them; it stops exactly if poll failed |
| PollServer.PollServer.RunServer | 00_tutorials/13_multiplexing_poll_client_server.c:121-214 | A run makes one wait per iteration and goes on exactly while no logged poll answered less than zero; each iteration is as RoundOk says about the answer of its own wait, the invariant holds, the history is a legal run that explains every system call, and the call log keeps to the clear-text dialogue |
| PollServer.StaleFlag | 00_tutorials/13_multiplexing_poll_client_server.c:125-213 | Whenever the client in the last used entry hangs up under its flag and somebody is seated after the next poll, the newcomer is received from though that poll did not report it, whoever hangs up |
| Slots.SwapRemoveConns | 00_tutorials/13_multiplexing_poll_client_server.c:178-181 | Swap-remove takes exactly one client out of the table and keeps the others distinct |
| Slots.StrayClient | 00_tutorials/13_multiplexing_poll_client_server.c:179-181 | A table of two in which the unflagged client is received from |
| Slots.StrayNewcomer | 00_tutorials/13_multiplexing_poll_client_server.c:153-163 | A table in which nobody was flagged and the newcomer is received from |
| Slots.OnlyReportedExactly | 00_tutorials/13_multiplexing_poll_client_server.c:161-213 | With nobody seated since poll, a sweep receives only from reported clients, whichever of them hang up, if and only if the reported clients fill the last entries |
| Slots.OnlyReportedWithNewcomer | 00_tutorials/13_multiplexing_poll_client_server.c:151-213 | With a newcomer seated since poll, a sweep receives only from reported clients, whoever hangs up, if and only if the newcomer's entry was left unflagged and nobody was reported |
| Slots.DeferredClient | 01_networking_libraries/openssl/src/ssl_client_server.c:281-292 | A table of two flagged clients in which the TLS sweep reads only the first |
| Slots.ReadsAllExactly | 01_networking_libraries/openssl/src/ssl_client_server.c:221-309 | The TLS sweep reads every flagged client, whoever hangs up, if and only if for each flagged entry its own index plus the number of flagged entries before it stays below the size of the table |
| PollTable.PollMeans | 01_networking_libraries/openssl/src/ssl_client_server.c:214 | What a call of poll was asked and answered, as read off the table: the listener and all clients, and the flags; unused entries add nothing |
| Sessions.PairedAfterSeating | 01_networking_libraries/openssl/src/ssl_client_server.c:242-245 | Seating keeps each used entry's session bound to that entry's descriptor, sessions distinct and unused entries empty |
| Sessions.PairedAfterRemoval | 01_networking_libraries/openssl/src/ssl_client_server.c:285-291 | Swap-remove in both tables keeps the same pairing |
| Sessions.Library.Free | 01_networking_libraries/openssl/src/ssl_client_server.c:256-286 | Freeing a live session keeps: created sessions are alive or freed, never both, never freed twice |
| TlsServer.SeatedShape | 01_networking_libraries/openssl/src/ssl_client_server.c:242-262 | A completed handshake keeps the shape of both tables and appends the newcomer |
| TlsServer.RefusedShape | 01_networking_libraries/openssl/src/ssl_client_server.c:248-257 | A failed handshake keeps the shape and the clients: the rollback leaves neither descriptor nor session behind |
| TlsServer.VisitedShape | 01_networking_libraries/openssl/src/ssl_client_server.c:269-306 | A visit keeps the shape of both tables and removes the client exactly if it hung up |
| TlsServer.TlsServer.constructor | 01_networking_libraries/openssl/src/ssl_client_server.c:192-207 | The invariant holds at the start: entry 0 is the listener with its session, all other entries are empty |
| TlsServer.TlsServer.SeatNewcomer | 01_networking_libraries/openssl/src/ssl_client_server.c:242-263 | The newcomer and a new session are put in the first unused entry and shake hands; they stay exactly if the logged handshake succeeded, otherwise both tables, the open descriptors and the live sessions are as before |
| TlsServer.TlsServer.AcceptClient | 01_networking_libraries/openssl/src/ssl_client_server.c:227-265 | The whole new state for each outcome: accept failed, seated, refused, turned away |
| TlsServer.TlsServer.VisitClient | 01_networking_libraries/openssl/src/ssl_client_server.c:269-306 | The whole new state, and in literal terms the calls made: a read, then the close exactly if nothing came or the text was quit or exit, and otherwise a write, whose failure does not drop the client |
| TlsServer.TlsServer.Sweep | 01_networking_libraries/openssl/src/ssl_client_server.c:221-309 | A session is read only if its own connection was flagged by this poll, and at most once; the sessions read, in order, are those of SweepOrder and the table left is that of AfterSweep; every reported session that is not read now stands behind the sweep in the entry of a client that hung up, and there is at most one for each of these |
| TlsServer.TlsServer.Poll | 01_networking_libraries/openssl/src/ssl_client_server.c:214-219 | The wait watches the listener and all clients; its answer is the one logged and matches the flags it leaves, none of them in an unused entry |
| TlsServer.TlsServer.Iterate | 01_networking_libraries/openssl/src/ssl_client_server.c:214-309 | One iteration is a logged wait for the listener and all clients, one accept exactly if the listener was reported, and a sweep of the polled table; it stops exactly if poll reported nothing, and then does nothing |
| TlsServer.TlsServer.Cleanup | 01_networking_libraries/openssl/src/ssl_client_server.c:312-329 | Every live client is closed once, every session ever created has been freed exactly once, none is left, and the listener is closed twice |
| TlsServer.TlsServer.RunServer | 01_networking_libraries/openssl/src/ssl_client_server.c:207-329 | A run makes one wait per iteration and goes on exactly while every logged poll answered more than zero; each iteration is as RoundOk says about the answer of its own wait; the call log keeps to the TLS dialogue; over the whole run no client is reported and left unread more than PATIENCE times; after an early end, cleanup leaves no client and every session freed exactly once |
| Slots.SweepNeverRaises | 01_networking_libraries/openssl/src/ssl_client_server.c:281-292 | No sweep, whoever hangs up, moves a client into a later slot |
| Patience.PatientStep | 01_networking_libraries/openssl/src/ssl_client_server.c:212-309 | What one iteration keeps: a client in slot i can be put off at most i times more, since being put off costs it a slot and nothing gives one back |
| Patience.NobodyStarves | 01_networking_libraries/openssl/src/ssl_client_server.c:212-309 | In a run, a client is read in all but at most PATIENCE of the iterations that report it |
| Patience.PatienceIsUsedUp | 01_networking_libraries/openssl/src/ssl_client_server.c:221-309 | A full table from which the same client is put off PATIENCE times in a row, each sweep starting from the clients the last one left |
| TlsServer.EveryClientClosedOnce | 01_networking_libraries/openssl/src/ssl_client_server.c:212-329 | After a run that ended in cleanup every accepted connection has been closed exactly once, except those turned away, which never are |
| Text.StoiReads | 01_networking_libraries/my_http_server/http_parser.cpp:44 | stoi reads back any integer that to_string wrote, with spaces before it and anything but digits after it, exactly if it lies between -2147483648 and 2147483647, and otherwise fails as out of range |
| Text.StoiForms | 01_networking_libraries/my_http_server/http_parser.cpp:44 | stoi also takes a plus sign and leading zeros, and fails as invalid if no digit follows the spaces and the sign |
| Text.DecimalNotation | 01_networking_libraries/my_http_server/http_response.cpp:20 | to_string writes decimal notation: the literal digits, units last, no leading zero, a minus sign for negative numbers |
| HttpParser.InputStream.GetLine | 01_networking_libraries/my_http_server/http_parser.cpp:21 | Reads up to the newline or the end, and fails only when nothing is left |
| HttpParser.InputStream.ExtractWord | 01_networking_libraries/my_http_server/http_parser.cpp:18 | Reads the next word and leaves what follows it |
| HttpParser.HTTPParser.ParseStart | 01_networking_libraries/my_http_server/http_parser.cpp:15-19 | Method and path are the first two words of the start line, unless that line is blank |
| HttpParser.HTTPParser.ParseHeader | 01_networking_libraries/my_http_server/http_parser.cpp:23-39 | A line with a colon sets its key to its value; a line without one changes nothing |
| HttpParser.HTTPParser.ParseHeaders | 01_networking_libraries/my_http_server/http_parser.cpp:21-40 | The line loop computes the header map of the lines before the blank line and stops right after that |
| HttpParser.HTTPParser.ParseBody | 01_networking_libraries/my_http_server/http_parser.cpp:42-47 | Without a Content-Length the body is empty; with one that reads as n the body has n bytes, those of the stream and NULs for the missing ones; otherwise parsing ends in the exception of stoi or of a negative length |
| HttpParser.HTTPParser.ParseRequest | 01_networking_libraries/my_http_server/http_parser.cpp:7-50 | The stateful parser computes the function Parse, errors included |
| HttpParser.Padded | 01_networking_libraries/my_http_server/http_parser.cpp:44-46 | The bytes read are the available ones, the rest are NULs |
| HttpLaws.HeadSplits | 01_networking_libraries/my_http_server/http_parser.cpp:21-40 | A finished header section is its lines, a blank line and the rest |
| HttpLaws.HeadOfJoined | 01_networking_libraries/my_http_server/http_parser.cpp:21-40 | Any such lines, blank line and rest are read back as just that |
| HttpLaws.LastHeaderWins | 01_networking_libraries/my_http_server/http_parser.cpp:28-39 | A key is in the map exactly if some line has it, with the value of the last such line |
| HttpLaws.HeaderLineMeaning | 01_networking_libraries/my_http_server/http_parser.cpp:23-38 | A header line is split at its first colon, less one leading space of the value and one trailing carriage return |
| HttpMeaning.HeaderLineReads | 01_networking_libraries/my_http_server/http_parser.cpp:23-38 | Any key without colon and any value, written with a colon between and with or without the carriage return, are read as that key and that value less one space in front |
| HttpMeaning.NoColonNoHeader | 01_networking_libraries/my_http_server/http_parser.cpp:28-29 | A line without a colon is no header |
| HttpLaws.Framing | 01_networking_libraries/my_http_server/http_parser.cpp:21-47 | A message means the same whatever bytes follow it if and only if start line, blank line and the whole body are there |
| HttpLaws.OnlyTheMessageMatters | 01_networking_libraries/my_http_server/http_parser.cpp:21-47 | Of a complete message only the bytes through the blank line and the body bytes asked for matter |
| HttpMeaning.MessageMeaning | 01_networking_libraries/my_http_server/http_parser.cpp:7-50 | Any start line, header lines, blank line and rest: without a Content-Length among the lines the body is empty whatever the rest is; otherwise the last one decides: n bytes of the rest with NULs for the missing ones, or the exception |
| HttpMeaning.OpenMessageMeaning | 01_networking_libraries/my_http_server/http_parser.cpp:21-47 | Without a blank line what follows the last newline is one more header line, and the body has no bytes but the NULs asked for |
| HttpMeaning.StartMeaning | 01_networking_libraries/my_http_server/http_parser.cpp:15-19 | Method and path are the first two words of the start line, with white space of any kind between them; a line of one word and a blank line leave the rest empty |
| HttpResponse.HTTPResponse.constructor | 01_networking_libraries/my_http_server/http_response.cpp:7-10 | No headers and no body, whatever the arguments |
| HttpResponse.HTTPResponse.SetStatus | 01_networking_libraries/my_http_server/http_response.cpp:12-15 | Sets the status and nothing else |
| HttpResponse.HTTPResponse.SetBody | 01_networking_libraries/my_http_server/http_response.cpp:17-21 | Sets the body, and Content-Length to its length |
| HttpResponse.HTTPResponse.SetHeader | 01_networking_libraries/my_http_server/http_response.cpp:23-26 | Sets one header and nothing else |
| HttpResponse.HTTPResponse.Print | 01_networking_libraries/my_http_server/http_response.cpp:28-51 | The text printed is Render for some order of the headers; it begins with the literal status line (200 OK, 404 Not Found, 500 Internal Server Error, any other number Unknown), has a line for each header, and ends with the Content-Length, a blank line and the body |
| RoundTrip.PrintedMessageIsRead | 01_networking_libraries/my_http_server/http_response.cpp:28-40 | With plain headers, printing and parsing gives the status, each value less one leading space, Content-Length as the body length and the whole body, or an out-of-range failure if the length does not fit an int |
| AnyOrder.PrintThenParse | 01_networking_libraries/my_http_server/http_response.cpp:23-40 | Printing and parsing gives everything back, in whatever order the map is walked, if and only if the body length fits an int and either the lines of the stored Content-Length have no blank line among them, set other headers only to the values they have, and the other headers are clean, or they do smuggle in a blank line, say the whole map before it, and the body is what is printed behind it |
| AnyOrder.SmuggledHeader | 01_networking_libraries/my_http_server/http_response.cpp:23-40 | Two headers, one a Content-Length of two lines: everything comes back in one order of the map and not in the other |
| AnyOrder.LeadingSpace | 01_networking_libraries/my_http_server/http_response.cpp:28-40 | A value that begins with a space does not come back in any order |
| AnyOrder.OneLineIsHarmless | 01_networking_libraries/my_http_server/http_response.cpp:17-26 | For a stored Content-Length of one line, as set_body stores it, that condition is: the other headers are plain and no value begins with a space |
| RoundTrip.PrintedIsComplete | 01_networking_libraries/my_http_server/http_response.cpp:28-40 | What is printed from plain headers is a complete message |
| HttpClient.SendAll | 00_tutorials/07_http_redirection.c:89-108 | For every pattern of partial sends the log shows that the peer got a prefix of the request, as far as it took it, and the check passes exactly when that is all of it |
| HttpClient.ReceiveAll | 00_tutorials/07_http_redirection.c:110-117 | For every chunking the buffer holds the first bytes of the stream, as many as fit, then NULs, and the log shows that just these were taken |
| HttpClient.TargetMeaning | 00_tutorials/07_http_redirection.c:126-140 | A reply redirects to a host exactly if it has the literal 301 phrase and the host is the shortest text from the first literal Location header to a line end |
| Redirects.LiteralRedirect | 00_tutorials/07_http_redirection.c:126-140 | The reply "HTTP/1.1 301 Moved Permanently, Location: h" redirects to h |
| Redirects.LiteralArrival | 00_tutorials/07_http_redirection.c:126-147 | A reply without the 301 phrase or without a Location header redirects nowhere |
| HttpClient.TargetFits | 00_tutorials/07_http_redirection.c:136-139 | The host with its terminator fits a buffer of the reply's size |
| HttpClient.CopyHost | 00_tutorials/07_http_redirection.c:137-139 | The buffer then holds the host as a C string, every write in bounds |
| HttpClient.Ask | 00_tutorials/07_http_redirection.c:84-143 | One exchange breaks off, arrives or redirects, and fills the caller's buffer, as a function of the network alone; the peer is sent a prefix of the literal GET request for this path and host, and all of it unless the exchange breaks off |
| Redirects.ExchangeMeaning | 00_tutorials/07_http_redirection.c:84-143 | No connection and an incomplete request break off; otherwise the first 1024 bytes are received and the text before the first NUL decides between arrival and redirect |
| HttpClient.PerformHttpRequest | 00_tutorials/07_http_redirection.c:26-148 | Code, response buffer, number of exchanges and the log of what each host was sent and what was received are those of the pure walk, however the bytes are cut up |
| Redirects.RequestsSent | 00_tutorials/07_http_redirection.c:86-140 | The k-th host asked is sent a prefix of the literal GET request for its path (the caller's path first, "/" afterwards) and its name, and all of it unless the chain breaks off there |
| Redirects.SentIsRead | 00_tutorials/07_http_redirection.c:86 | The literal request is read by the server's parser as GET with that path and Host if and only if the path is one word and the host has no newline |
| Redirects.HostsFollow | 00_tutorials/07_http_redirection.c:126-140 | Every host but the first is the one that the reply received before points to |
| Redirects.ChainMeaning | 00_tutorials/07_http_redirection.c:26-148 | At most 6 - c hosts; in success the last one was sent everything and its reply points nowhere, in not-found the limit is used up and the last reply still points somewhere, in failure there was no connection or the request was not taken whole |
| Redirects.BufferBytes | 00_tutorials/07_http_redirection.c:121-124 | Byte j of the caller's buffer is the one of the last host that delivered more than j bytes, or as it was |
| Redirects.NoBuffer | 00_tutorials/07_http_redirection.c:121-124 | A missing buffer stays missing |
| HttpClient.ChainEnds | 00_tutorials/07_http_redirection.c:126-147 | A chain that ends at the k-th exchange within the limit takes k+1 exchanges and reports that exchange's result |
| HttpClient.ChainGoesOn | 00_tutorials/07_http_redirection.c:28-31 | A chain in which every exchange left redirects uses the limit up and is reported as not found |
| HttpClient.ChainOutcome | 00_tutorials/07_http_redirection.c:26-148 | At most MAX_REDIRECTION - c + 1 exchanges; not found, success and failure each if and only if the exchanges are so |
| HttpClient.RequestIsRead | 00_tutorials/07_http_redirection.c:86 | The server's parser reads the client's request as GET, the same path and exactly the two headers, if and only if the path is one word and the host has no newline |

## Left out

- Socket setup, getnameinfo, printing, the clock and the text of the answer "Server time": only the result of each send is modelled.
- Endless loops: a run is any finite number of iterations; the invariants hold after each of them.
- Closing the listener after the loop of the poll and select servers, and freeing the TLS context and the address list.
- Received lengths of MESSAGE_SIZE or more in the servers: the terminator would be written past the request buffer, so recv is taken to deliver fewer bytes.
- Descriptor 0 and the limit FD_SETSIZE: descriptors are positive and sets of descriptors are unbounded; other descriptors of the process are never handed out by accept.
- SSL_new is taken to succeed; handshake traffic, SSL_shutdown and the record layer are not modelled, so a read on a session is a receive on its descriptor.
- After an error of select the watched set is taken to be unchanged, as on Linux.
- Buffers of requests and answers are strings; only the client's response, reply and host buffers are arrays.
- HttpClient.ReceiveAll: a reply that fills the buffer without a NUL has no terminator in the source; the model then searches just the buffer.
- Requests of 1024 bytes or more, which overflow the client's request buffer, and the release of sockets on the redirect path.
- Memory exhaustion while resizing the body.
- HTTPServer::start with its own poll table, the router's file lookup, the logger, the libcurl and HTTPS clients, broadcasting, and the single-client, threaded and non-blocking echo servers.
