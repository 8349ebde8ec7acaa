# Verified models of the game server utilities

Dafny models of the C and C++ code that carries the protocol and data logic of the repository, with proofs of
what that code is for. `dafny verify dfyconfig.toml` checks everything.

- **Redis protocol engine** (`Bytes`, `Resp`, `ReaderMachine`, `Arrival`, `RoundTrip`, `Reader`, `Formatter`,
  `FormatString`): the resumable reader with its nine-slot task stack as a class, refined to a pure machine and then to
  a recursive parser; the command formatters. Main results: replies do not depend on how bytes arrive, printer and
  parser undo each other up to the exact depth limit, the formatters fill exactly the length they computed.
- **Asynchronous pipeline and event loop** (`EventTable`, `AsyncState`, `AsyncWorld`, `CommandNames`, `EventLoop`,
  `Timers`, `Dict`):
  contexts, callbacks, adapters, file events and connections as one world in which a freed context leaves the memory
  map, so that every access carries a proof that the context is alive. Callbacks are arbitrary calls of the same
  interface. Main results: callbacks get their replies exactly once and in order, no handler runs for a dead context,
  connection pointers never dangle, and the two assertions of the source trip exactly under stated conditions. The
  reader inside a context is the machine of `Arrival`, so "the i-th reply" is the i-th reply of the bytes received.
- **UTF transcoding** (`Bits`, `Transcoding`, `Utf`, `TargetBuffer`, `UtfLoops`, `UtfBuffers`): the six loops over
  buffers, refined to a conversion step, with round trips, commutation and resumption for all of them, on arrays
  (Unicode Standard, section 3.9).
- **INI store** (`IniText`, `IniRoundTrip`, `IniComments`, `IniBuffer`, `IniStore`, `IniFile`): the parser at work in its buffer, the
  two-level map with its load numbers, the printer, and the round trip through all of them.
- **Redeem codes** (`Bits`, `RedeemCode`, `RedeemTool`): the codes as a bijection, and the generator with its history.
- **Argument quoting** (`Quoting`, `QuotedWords`): a printer and its parser.

Where the source asks the system (sockets, epoll, clocks, files), the answer is a parameter or an arbitrary value, so
the results hold for every answer. Characters and words are integers with their ranges stated where they matter.

Four places where the code does not do what one might expect are stated as results. `async.c:410` does not look at
the queue of callbacks, so a disconnect while replies are pending can trip the assertion at `async.c:328`
(`DisconnectThenRead`, `EarlyDisconnect`). An end tag on the first line of a multi-line value leaves the value running
on into the following text (`ScanTagged` says exactly when, `FirstLineTagRunsOn` shows one). The history skips function
id 0 and loses what a failed rewrite should have kept (`NoCodeIsIssuedTwice` says exactly when codes repeat).
A lenient conversion from UTF-16 can stop behind a high surrogate without its partner, having written what it would
refuse on its own (`WrittenIsConversionOfConsumed` says exactly for which sources, `LoneHighPasses` shows one).

## Model

| member | source | states |
|---|---|---|
| Resp.FindNewlineExtends | redisClient/dep/hiredis/hiredis.c:260-283 | a line end found in the bytes at hand is still the first one when more bytes follow |
| Resp.ParseOneExtends | redisClient/dep/hiredis/hiredis.c:507-554 | a reply, or a protocol error, read from a prefix of the input never changes when more bytes arrive |
| Resp.ParseManyExtends | redisClient/dep/hiredis/hiredis.c:330-353 | the same for the elements of an array, however deeply they nest |
| ReaderMachine.StepShape | redisClient/dep/hiredis/hiredis.c:330-353 | one item never pushes the stack beyond its nine slots and uses up input unless it has to wait |
| ReaderMachine.CompleteFinishes | redisClient/dep/hiredis/hiredis.c:330-353 | attaching a value to the innermost open array and closing the arrays it fills is what the recursive reading of the reply does next |
| ReaderMachine.StepKeepsOutlook | redisClient/dep/hiredis/hiredis.c:507-554 | whatever is still to come, what the task stack will make of it is what a recursive parser makes of the whole reply; a blocked step really lacks bytes |
| ReaderMachine.BulkKeepsOutlook | redisClient/dep/hiredis/hiredis.c:389-440 | a bulk string is finished only when its announced length and its line end are there |
| ReaderMachine.ArrayKeepsOutlook | redisClient/dep/hiredis/hiredis.c:442-505 | an array header opens a frame, or ends at once for counts 0 and below, and is refused at the ninth level |
| Arrival.GetKeepsVerdict | redisClient/dep/hiredis/hiredis.c:617-665 | asking for a reply, at any moment, keeps the replies given so far followed by those to come equal to the replies of the stream |
| Arrival.RunKeepsVerdict | redisClient/dep/hiredis/hiredis.c:585-665 | so does every schedule of feeds and requests |
| Arrival.DrainedSessionIsTheStream | redisClient/dep/hiredis/hiredis.c:585-665 | a drained reader has handed out exactly the replies of the bytes it was fed, and is broken exactly when they break the protocol |
| Arrival.ArrivalIndependence | redisClient/dep/hiredis/hiredis.c:585-665 | two schedules that feed the same bytes and are drained give the same replies and the same error status |
| Arrival.AskingDrains | redisClient/dep/hiredis/hiredis.c:617-665 | asking often enough always drains the reader |
| RoundTrip.LongLongOfSignedDecimal | redisClient/dep/hiredis/hiredis.c:288-313 | the number reader undoes the decimal printing of every integer |
| RoundTrip.ParseOfEncode | redisClient/dep/hiredis/hiredis.c:330-554 | parsing the wire form of a reply tree, whatever follows it, returns the tree and uses exactly its bytes if every array starts at depth 0 to 7, and is a protocol error otherwise |
| RoundTrip.EncodeIsPrefixFree | redisClient/dep/hiredis/hiredis.c:330-554 | two different reply trees never have wire forms of which one begins like the other |
| RoundTrip.ParseOfPipeline | redisClient/dep/hiredis/hiredis.c:617-665 | a pipeline of replies parses back to exactly the replies sent |
| Reader.SeekNewline | redisClient/dep/hiredis/hiredis.c:260-283 | finds the first CR LF, however many lone CRs precede it, and only then |
| Reader.ReadLongLong | redisClient/dep/hiredis/hiredis.c:288-313 | reads the sign and the digits of a line; a byte that is no digit gives -1 |
| Reader.RedisReader.MoveToNextTask | redisClient/dep/hiredis/hiredis.c:330-353 | the stack afterwards is the machine with the value attached and every filled array closed |
| Reader.RedisReader.ProcessLineItem | redisClient/dep/hiredis/hiredis.c:355-387 | a line item does to the real stack and cursor what the machine step does |
| Reader.RedisReader.ProcessBulkItem | redisClient/dep/hiredis/hiredis.c:389-440 | the same for a bulk item; an incomplete one leaves the cursor behind its type byte only |
| Reader.RedisReader.ProcessMultiBulkItem | redisClient/dep/hiredis/hiredis.c:442-505 | the same for an array header, the protocol error at the ninth level included |
| Reader.RedisReader.ProcessItem | redisClient/dep/hiredis/hiredis.c:507-554 | the same for any item, its type byte read or still to be read |
| Reader.RedisReader.Feed | redisClient/dep/hiredis/hiredis.c:585-615 | appends to the unread input; discarding a large empty buffer loses nothing and gives its room back |
| Reader.RedisReader.Discard | redisClient/dep/hiredis/hiredis.c:648-655 | once 1024 bytes are consumed they are dropped, and their room is free; the unread input stays |
| Reader.RedisReader.CatLen | redisClient/dep/hiredis/sds.c:239-252 | appends; room that is too small becomes as much as the text, up to a megabyte |
| Reader.RedisReader.GetReply | redisClient/dep/hiredis/hiredis.c:617-665 | the new state and the reply are those of the machine; an empty buffer gives no reply and starts no task; fewer than 1024 consumed bytes are kept |
| Reader.RunSchedule | redisClient/dep/hiredis/hiredis.c:585-665 | a schedule carried out on the real reader gives the replies and the error status of the machine, so arrival independence holds of it |
| Formatter.IntLen | redisClient/dep/hiredis/hiredis.c:668-680 | the computed number of digits is the length of the printed number, sign included |
| Formatter.CommandLength | redisClient/dep/hiredis/hiredis.c:939-955 | the length computed beforehand is the length of the command |
| Formatter.FormatCommandArgv | redisClient/dep/hiredis/hiredis.c:939-971 | fills the buffer with exactly the command, no byte more or less, and a NUL behind it |
| Formatter.CommandParsesBack | redisClient/dep/hiredis/hiredis.c:939-971 | the reader parses a formatted command back to its arguments, whatever bytes they hold and whatever follows |
| Formatter.CommandIsInjective | redisClient/dep/hiredis/hiredis.c:939-971 | two argument lists with the same wire form are the same |
| Formatter.ScanOneArgument | redisClient/dep/hiredis/async.c:554-566 | the scan for the next argument skips the whole of an argument, dollar signs, line ends and NULs included |
| Formatter.FirstArgument | redisClient/dep/hiredis/async.c:587-589 | the first argument found in a formatted command is its name; the assertion on it never fails |
| Formatter.ScanCommand | redisClient/dep/hiredis/async.c:554-566 | scanning a formatted command again and again yields its arguments and then none |
| FormatString.SplitFormat | redisClient/dep/hiredis/hiredis.c:686-760 | one pass over a format with literals, %s, %b and %% gives the words between its own spaces with the arguments filled in afterwards, so an argument is never split |
| FormatString.FormatCommand | redisClient/dep/hiredis/hiredis.c:686-895 | the command is the wire form of those words |
| FormatString.ArgcFixedByFormat | redisClient/dep/hiredis/hiredis.c:686-760 | the number of arguments of a command depends on the format alone |
| FormatString.FormatSays | redisClient/dep/hiredis/hiredis.c:686-760 | written without the scanner: a format of words made of text with doubled percent signs, %s and %b, with any spaces between, stands for exactly the values of its words, %s up to the first NUL and %b all of it |
| FormatString.FormatWords | redisClient/dep/hiredis/hiredis.c:686-895 | so the bytes are the wire form of exactly those values |
| AsyncState.NewContextIsCoherent | redisClient/dep/hiredis/async.c:105-140 | a new context owes nothing and its reader has everything still to come |
| AsyncState.FollowsGet | redisClient/dep/hiredis/hiredis.c:1210-1238 | asking the reader keeps the replies taken so far in step with the byte stream |
| AsyncState.FollowsDry | redisClient/dep/hiredis/hiredis.c:1210-1238 | a reader with nothing left to give has given every reply of the bytes received, and is broken only if they are |
| AsyncState.CallOf | redisClient/dep/hiredis/async.c:238-261 | every function taken off the queue was called exactly once, at its place in the order of the commands |
| AsyncState.EachCallbackGetsItsReply | redisClient/dep/hiredis/async.c:400-472 | the callback of the i-th accepted command is called with the i-th reply of the bytes received, or with NULL if that never came, and no other call is made |
| AsyncState.FreedContextServedAll | redisClient/dep/hiredis/async.c:264-306 | by the time a context is freed each function it was given was called exactly once, in order, the leftovers with NULL |
| AsyncState.SentIsPrefixOfCommands | redisClient/dep/hiredis/hiredis.c:1171-1198 | what went out is the beginning of the accepted commands in order, and all of it exactly when the output buffer is empty |
| AsyncState.ShiftOwes | redisClient/dep/hiredis/async.c:238-252 | a callback taken off the head of the queue is owed the reply with its own number |
| AsyncState.AcceptIsCoherent | redisClient/dep/hiredis/async.c:571-633 | a command joins the tail of the queue and its bytes the end of the output buffer |
| AsyncState.KeptTrans | redisClient/dep/hiredis/async.c:254-261 | what called-back code leaves alone, it leaves alone over any number of calls |
| AsyncState.Rewatch | redisClient/dep/hiredis/adapters/libae.h:59-93 | registering or removing a handler together with the flag keeps table and flags equal for all contexts |
| AsyncState.RemoveKeepsMirror | redisClient/dep/hiredis/adapters/libae.h:95-100 | a context that waits for nothing leaves no entry behind in the table |
| AsyncState.RemoveKeepsLinks | redisClient/src/RedisConn.cpp:114-135 | when a context goes away no connection is left pointing to it, provided those that do are told |
| AsyncState.RefuseKeepsLinks | redisClient/src/RedisConn.cpp:99-106 | a failed attempt makes its connection forget the context before it is freed |
| AsyncState.EstablishKeepsLinks | redisClient/src/RedisConn.cpp:108-111 | an established context and its connection agree that it is connected |
| AsyncState.AttachKeepsLinks | redisClient/src/RedisConn.cpp:60-77 | a connection in its initial state can be given a new context without breaking any other link |
| AsyncState.ConnectedIsReleasable | redisClient/src/RedisConn.cpp:114-135 | a connected context can be freed by anybody: its connection is told |
| AsyncState.FreeLeavesNoDanglingIffReleasable | redisClient/dep/hiredis/async.c:296-302 | freeing a context leaves no dangling connection pointer exactly when the context is connected or no connection points to it; a connection that is still connecting is not told |
| AsyncState.ConnectingIsNotTold | redisClient/src/RedisConn.cpp:46-135 | one state in which freeing the context of a connecting connection, which it never hands out, would leave its pointer dangling |
| AsyncState.AskedDry | redisClient/dep/hiredis/async.c:407-423 | with no complete reply left, the assertion of a disconnect must trip exactly if a disconnect is due and callbacks are queued |
| AsyncState.AskedTooMany | redisClient/dep/hiredis/async.c:427-451 | a reply nobody asked for is reply number n of the stream, n being the number of commands; an error reply ends the connection, any other trips the assertion |
| AsyncWorld.World.AddRead | redisClient/dep/hiredis/adapters/libae.h:59-66 | afterwards the context waits to read, once, and the table says so |
| AsyncWorld.World.DelRead | redisClient/dep/hiredis/adapters/libae.h:68-75 | afterwards it does not |
| AsyncWorld.World.AddWrite | redisClient/dep/hiredis/adapters/libae.h:77-84 | afterwards the context waits to write, once, and the table says so |
| AsyncWorld.World.DelWrite | redisClient/dep/hiredis/adapters/libae.h:86-93 | afterwards it does not |
| AsyncWorld.World.Cleanup | redisClient/dep/hiredis/adapters/libae.h:95-100 | the context waits for nothing |
| AsyncWorld.World.ShiftCallback | redisClient/dep/hiredis/async.c:238-252 | takes the head of the queue; calling it with the reply of its own number settles the account |
| AsyncWorld.World.RunCallback | redisClient/dep/hiredis/async.c:254-261 | the callback is called with its reply while the context is marked, and makes exactly the calls it is to make, each with its effect; whatever they are, the context is still there afterwards |
| AsyncWorld.World.FreeContext | redisClient/dep/hiredis/async.c:264-306 | runs all remaining callbacks with NULL, in order, deregisters, tells the connection, and frees; the address is never used again, so this happens at most once per context |
| AsyncWorld.World.AsyncFree | redisClient/dep/hiredis/async.c:312-317 | frees at once outside of callbacks of the context and only marks it inside |
| AsyncWorld.World.DisconnectContext | redisClient/dep/hiredis/async.c:320-338 | without an error and with callbacks queued the assertion ends the program, otherwise the context is freed |
| AsyncWorld.World.AsyncDisconnect | redisClient/dep/hiredis/async.c:346-351 | stops new commands; frees at once exactly if no callback is running or queued; never trips the assertion |
| AsyncWorld.World.AsyncCommand | redisClient/dep/hiredis/async.c:571-633 | a command is accepted exactly if no disconnect or free was asked for (and it is no unsubscribe); then callback and bytes are queued and a write is scheduled |
| CommandNames.NamesThatMatter | redisClient/dep/hiredis/async.c:601-627 | which names are subscribe, unsubscribe and monitor commands, spelt out: in letters of either case, with or without a p in front |
| AsyncWorld.World.CommandBytes | redisClient/dep/hiredis/async.c:587-589 | the name is always found in the formatted bytes |
| AsyncWorld.World.Deliver | redisClient/dep/hiredis/async.c:456-471 | hands one reply to one callback and frees the context if the callback asked for it |
| AsyncWorld.World.ProcessReply | redisClient/dep/hiredis/async.c:406-472 | one turn of the loop uses up input, or ends it with the right verdict about both assertions |
| AsyncWorld.World.ProcessCallbacks | redisClient/dep/hiredis/async.c:400-477 | unless a callback frees the context, the assertion on a disconnect ends the program exactly if a disconnect is due, everything was written, the bytes received break no rule and hold fewer replies than commands were accepted; the one on spontaneous replies exactly if they hold more and the first one too many is no error; otherwise no complete reply stays undelivered |
| AsyncWorld.World.HandleConnect | redisClient/dep/hiredis/async.c:482-499 | a pending attempt stays, a failed one frees the context, a successful one marks it and its connection connected |
| AsyncWorld.World.OnRefused | redisClient/src/RedisConn.cpp:99-106 | the connection goes back to its initial state with no context |
| AsyncWorld.World.OnConnected | redisClient/src/RedisConn.cpp:108-111 | the connection is in the state of a connected one exactly as its context is |
| AsyncWorld.World.BufferRead | redisClient/dep/hiredis/hiredis.c:1134-1160 | feeds exactly the bytes read, or notes an error |
| AsyncWorld.World.BufferWrite | redisClient/dep/hiredis/hiredis.c:1171-1198 | moves as many bytes as the socket took from the front of the output buffer to what was sent |
| AsyncWorld.World.HandleRead | redisClient/dep/hiredis/async.c:504-523 | a readable socket: a failed attempt or a read error frees the context, all its callbacks having run, and leaves its connection initial with no context; otherwise the verdict of the replies on old and new bytes together, and the context goes on reading |
| AsyncWorld.World.HandleWrite | redisClient/dep/hiredis/async.c:525-550 | a writable socket: no callback runs unless the context is freed by an error; otherwise exactly the bytes taken went out, and the context waits to write exactly if bytes are left and always to read |
| AsyncWorld.World.Connect | redisClient/src/RedisConn.cpp:46-78 | starts an attempt exactly from the initial state: no context, one with an error, or one that is connecting |
| AsyncWorld.World.InitConn | redisClient/src/RedisConn.cpp:32-44 | a second initialisation is refused and changes nothing; the first sets the port and starts an attempt |
| AsyncWorld.World.AsyncCmdArgv | redisClient/src/RedisConn.cpp:166-180 | a command goes out only with a context and with the last callback object created, which is used up by it |
| AsyncWorld.World.UserCode | redisClient/dep/hiredis/async.c:254-261 | any sequence of API calls on any contexts and connections, nested to any depth, has the effect of its calls and keeps every invariant |
| AsyncWorld.Loop.CallHandler | redisClient/dep/hiredis/adapters/libae.h:45-57 | a handler is called for a context that is alive and does what a read or write event does |
| AsyncWorld.Loop.ProcessFired | redisClient/dep/hiredis/ae.c:404-422 | of a fired descriptor exactly the handlers registered at that moment are called, each with the context registered then, even if the read handler tears it down or another context takes over the descriptor |
| AsyncWorld.Loop.ProcessEvents | redisClient/dep/hiredis/ae.c:404-424 | of a batch every descriptor is dispatched so, in order, each in the state the one before left, until an assertion ends the program |
| AsyncWorld.Loop.ReconnectTimer | redisClient/src/RedisConn.cpp:182-193 | every connection in its initial state, and no other, tries again |
| AsyncWorld.Loop.Run | redisClient/dep/hiredis/ae.c:356-430 | over every run, act by act: batches are dispatched so; descriptors and flags mirror the table, connection pointers never dangle, connected and connecting states match their contexts, queues and replies are in step, and the program ends only by an assertion that had to trip |
| AsyncWorld.DisconnectThenRead | redisClient/dep/hiredis/async.c:346-351 | a disconnect asked for while replies are pending trips the assertion at the next read event only if everything was written and the bytes received by then hold fewer replies than commands, and always then unless a callback frees the context first |
| AsyncWorld.EarlyDisconnect | redisClient/dep/hiredis/async.c:408-413 | one such run from the start, of events the context waits for: connect, one command, disconnect before the reply |
| EventTable.CreateThenDelete | redisClient/dep/hiredis/ae.c:139-175 | registering both directions and removing them again, in any order, leaves no trace |
| EventLoop.TableUpdate | redisClient/dep/hiredis/ae.c:139-157 | storing a slot changes the registration of its own descriptor only |
| EventLoop.FileEvents.EpollCtl | redisClient/dep/hiredis/ae_epoll.c:93-113 | additions are issued for unregistered descriptors only, changes and removals for registered ones only |
| EventLoop.FileEvents.CreateFileEvent | redisClient/dep/hiredis/ae.c:139-157 | registers in the table and the kernel alike, or changes nothing if the descriptor is too large or the kernel refuses |
| EventLoop.FileEvents.DeleteFileEvent | redisClient/dep/hiredis/ae.c:159-175 | removes the directions from table and kernel; the greatest registered descriptor is found again |
| EventLoop.FileEvents.ResizeSetSize | redisClient/dep/hiredis/ae.c:110-126 | succeeds exactly if all registered descriptors fit; uninitialised new slots never count as registered |
| EventLoop.FileEvents.GetFileEvents | redisClient/dep/hiredis/ae.c:177-182 | answers what is registered, and nothing for descriptors out of range |
| EventLoop.FileEvents.Perform | redisClient/dep/hiredis/ae.c:110-175 | over every sequence of operations the kernel set equals the table and maxfd is the greatest registered descriptor or -1 |
| Timers.WithoutRemoves | redisClient/dep/hiredis/ae.c:226-246 | removing an id removes exactly its timer and keeps the order of the others |
| Timers.LaterIsExact | redisClient/dep/hiredis/ae.c:193-205 | the time computed is exactly so many milliseconds away, in normal form for delays that are not negative |
| Timers.DueIsElapsed | redisClient/dep/hiredis/ae.c:309-311 | for times in normal form the comparison by seconds and milliseconds is the comparison of the times |
| Timers.TimerList.CreateTimeEvent | redisClient/dep/hiredis/ae.c:207-224 | the new timer has a fresh id, comes first, and is due exactly so many milliseconds from the clock |
| Timers.TimerList.DeleteTimeEvent | redisClient/dep/hiredis/ae.c:226-246 | removes the timer with the id, if there is one |
| Timers.TimerList.RunTimer | redisClient/dep/hiredis/ae.c:309-335 | after its callback a timer is gone, or set for exactly so many milliseconds from the clock; the others stay as the callback left them |
| Timers.TimerList.ProcessTimeEvents | redisClient/dep/hiredis/ae.c:275-341 | a pass ends, runs no timer created during the pass and none before its time, makes at most as many calls as there were timers plus the times callbacks asked to run again, and leaves no older timer that was due when it began; after the clock was set back all of them run |
| Dict.HoldsInsert | redisClient/dep/hiredis/dict.c:135-153 | putting a new entry at the head of the chain of its bucket adds exactly its key |
| Dict.HoldsRemove | redisClient/dep/hiredis/dict.c:182-210 | unlinking an entry removes exactly its key |
| Dict.HoldsFind | redisClient/dep/hiredis/dict.c:243-256 | a key is in the table exactly if the chain of its bucket holds it |
| Dict.BehindNext | redisClient/dep/hiredis/dict.c:268-286 | one entry further, exactly that entry joins those behind |
| Dict.Table.Index | redisClient/dep/hiredis/dict.c:328 | masking the hash picks the bucket, the hash modulo the size |
| Dict.Table.NextPower | redisClient/dep/hiredis/dict.c:306-315 | the least power of two that is at least 4 and at least the size asked for |
| Dict.Table.Expand | redisClient/dep/hiredis/dict.c:88-132 | moves every entry and keeps the map; the count of entries left to move is 0 at the end; refused exactly if there are more entries than the size asked for |
| Dict.Table.Add | redisClient/dep/hiredis/dict.c:135-153 | adds a key exactly if it is new, for any hash function; the table starts with 4 buckets and doubles when it is full |
| Dict.Table.Replace | redisClient/dep/hiredis/dict.c:160-179 | the key has the new value; tells whether it was new |
| Dict.Table.Delete | redisClient/dep/hiredis/dict.c:182-210 | removes exactly the key, and touches no chain but its own |
| Dict.Table.Find | redisClient/dep/hiredis/dict.c:243-256 | finds the value of every key and of no other |
| Dict.Iterator.Next | redisClient/dep/hiredis/dict.c:268-286 | returns an entry not returned before, and none only when all have been |
| Dict.Iterator.DeleteReturned | redisClient/dep/hiredis/dict.c:277-281 | deleting the entry just returned does not disturb the walk |
| Dict.VisitAll | redisClient/dep/hiredis/dict.c:258-286 | every entry is visited exactly once even if visited entries are deleted on the way |
| Quoting.CatRepr | redisClient/dep/hiredis/sds.c:744-767 | appends the quoted form |
| Quoting.ScanToken | redisClient/dep/hiredis/sds.c:819-903 | scans one token, or finds its quotes unbalanced |
| Quoting.SplitArgs | redisClient/dep/hiredis/sds.c:819-927 | ends on every line and never reads past its terminator; yields the arguments or nothing if quotes are unbalanced |
| Quoting.EscapeScans | redisClient/dep/hiredis/sds.c:744-767 | the scanner reads the escapes of any bytes back as those bytes |
| Quoting.SplitOfReprs | redisClient/dep/hiredis/sds.c:744-927 | splitting the quoted forms of any byte strings, joined by single spaces, returns exactly those byte strings; the line holds no NUL even if they do |
| Quoting.QuoteAndSplit | redisClient/dep/hiredis/sds.c:744-927 | the printer and the parser run one after the other give back the arguments |
| Quoting.ReprsAreInjective | redisClient/dep/hiredis/sds.c:744-767 | two lists with the same quoted line are the same |
| QuotedWords.LineSays | redisClient/dep/hiredis/sds.c:819-927 | written without the scanner: a line of plain words, words that end in double quotes with escapes and words that end in single quotes, with any blanks between, is split into exactly the values of its words |
| QuotedWords.UnbalancedIsRefused | redisClient/dep/hiredis/sds.c:871-893 | a line is refused if its last quotes are not closed, or are closed in the middle of a word |
| QuotedWords.PrintedForm | redisClient/dep/hiredis/sds.c:744-767 | the quoted form is printable; which bytes take one, two and four bytes |
| Utf.LegalityIsTable37 | gflags_SimpleIni/dep/SimpleIni/ConvertUTF.c:295-318 | every sequence of Table 3-7 of the Unicode Standard is accepted, and the only others accepted are led by ED or F4 with a second byte below 80 |
| Utf.LegalDecodesToScalar | gflags_SimpleIni/dep/SimpleIni/ConvertUTF.c:345-364 | whatever is accepted decodes to a scalar value all the same |
| Utf.LeadingOnes | gflags_SimpleIni/dep/SimpleIni/ConvertUTF.c:174-191 | how many bytes a lead byte asks for, by its leading ones |
| Utf.StrictIsLenientFrom8 | gflags_SimpleIni/dep/SimpleIni/ConvertUTF.c:336-520 | so strict and lenient decoding of UTF-8 agree on all inputs |
| Utf.StepOfEnc | gflags_SimpleIni/dep/SimpleIni/ConvertUTF.c:61-520 | each converter reads the encoding form of a scalar value, whatever follows, and writes the other form of it |
| Utf.IllFormedValues | gflags_SimpleIni/dep/SimpleIni/ConvertUTF.c:74-92 | what becomes of surrogates and too large values in UTF-32, by value |
| Utf.ConvertersCommute | gflags_SimpleIni/dep/SimpleIni/ConvertUTF.c:61-520 | each converter turns the encoding of any text in one form of section 3.9 of the Unicode Standard into its encoding in the other, given unlimited room; BoundedCall says it for any room |
| Utf.FullIsACall | gflags_SimpleIni/dep/SimpleIni/ConvertUTF.c:61-520 | a call with room for all that is to be written, and one character more, does what one with unlimited room does |
| Utf.BoundedCall | gflags_SimpleIni/dep/SimpleIni/ConvertUTF.c:61-520 | a call on an encoded text writes the whole encoding in the other form exactly if there is room for it, and says that the target is exhausted otherwise |
| Utf.ThereAndBack | gflags_SimpleIni/dep/SimpleIni/ConvertUTF.c:61-520 | converting to another form and back through buffers that are large enough is the identity on encoded texts, for all three pairs of forms |
| Utf.DetourIsDirect | gflags_SimpleIni/dep/SimpleIni/ConvertUTF.c:61-520 | converting by way of the third form through buffers that are large enough gives what converting directly gives |
| Utf.WrittenIsConversionOfConsumed | gflags_SimpleIni/dep/SimpleIni/ConvertUTF.c:136-151 | at every stop, whatever the room, what was written is exactly the conversion of what was used, unless the source is UTF-16, conversion is lenient, and a high surrogate in the source is followed by something other than its partner; then some room makes it false |
| Utf.LoneHighPasses | gflags_SimpleIni/dep/SimpleIni/ConvertUTF.c:119-143 | one such source: D800 0041 with room for one unit |
| Utf.WellFormedStopsAreExact | gflags_SimpleIni/dep/SimpleIni/ConvertUTF.c:94-151 | on well-formed text, cut anywhere, every stop is behind a whole number of characters, exactly those are written, and the stop is exact; the next character has no room or is cut |
| Utf.StrictNeverWaits | gflags_SimpleIni/dep/SimpleIni/ConvertUTF.c:123-143 | strict conversion never uses up a source that ends in a high surrogate |
| Utf.AnyBuffers | gflags_SimpleIni/dep/SimpleIni/ConvertUTF.c:61-520 | a source that converts to its end may arrive in any chunks and stop for want of room anywhere: as many calls with room for one character as units are left finish it, and all calls together wrote what one call with unlimited room writes |
| Utf.ResumedTextIsEncoding | gflags_SimpleIni/dep/SimpleIni/ConvertUTF.c:61-520 | so an encoded text that arrives and stops in any way is written as its encoding in the other form |
| Transcoding.StopIsClean | gflags_SimpleIni/dep/SimpleIni/ConvertUTF.c:94-96 | a stop leaves nothing half done: going on from it is converting as if there had been no stop |
| Transcoding.CallsMakeProgress | gflags_SimpleIni/dep/SimpleIni/ConvertUTF.c:267-270 | a call with room for one character makes progress exactly if the source starts with a character that is complete and legal |
| Transcoding.Drains | gflags_SimpleIni/dep/SimpleIni/ConvertUTF.c:243-249 | such calls, as many as units are left, always reach the end of a source that converts to its end |
| Transcoding.AnyBuffersGiveTheSame | gflags_SimpleIni/dep/SimpleIni/ConvertUTF.c:243-249 | chunks and buffers do not matter, for any step that a complete character settles and that needs bounded room |
| UtfLoops.TrailByte | gflags_SimpleIni/dep/SimpleIni/ConvertUTF.c:270-273 | setting the tag and masking gives a trailing byte with the six low bits |
| UtfLoops.LeadByte | gflags_SimpleIni/dep/SimpleIni/ConvertUTF.c:273 | or-ing the mark in gives the lead byte for the length |
| UtfLoops.WriteBackwards | gflags_SimpleIni/dep/SimpleIni/ConvertUTF.c:266-274 | writing the bytes from the last to the first fills exactly their places with the encoding |
| UtfLoops.IsLegal | gflags_SimpleIni/dep/SimpleIni/ConvertUTF.c:295-318 | the fall-through test from the last byte to the first |
| UtfLoops.IsLegalSequence | gflags_SimpleIni/dep/SimpleIni/ConvertUTF.c:326-332 | a whole sequence is there and decodes |
| UtfLoops.Read8 | gflags_SimpleIni/dep/SimpleIni/ConvertUTF.c:345-364 | accumulates the bytes and takes the offset off, and moves behind a whole legal sequence only |
| UtfLoops.Read16 | gflags_SimpleIni/dep/SimpleIni/ConvertUTF.c:119-148 | joins a surrogate pair, keeps back half a pair at the end of the source, and refuses lone surrogates if strict |
| UtfLoops.ConvertUTF32toUTF16 | gflags_SimpleIni/dep/SimpleIni/ConvertUTF.c:61-106 | result, both cursors and the target are those of the conversion; no other unit of the target is written |
| UtfLoops.ConvertUTF16toUTF32 | gflags_SimpleIni/dep/SimpleIni/ConvertUTF.c:110-160 | the same |
| UtfLoops.ConvertUTF16toUTF8 | gflags_SimpleIni/dep/SimpleIni/ConvertUTF.c:214-280 | the same, with both cursors backed up when the target is exhausted |
| UtfLoops.ConvertUTF8toUTF16 | gflags_SimpleIni/dep/SimpleIni/ConvertUTF.c:336-405 | the same |
| UtfLoops.ConvertUTF32toUTF8 | gflags_SimpleIni/dep/SimpleIni/ConvertUTF.c:409-458 | the same |
| UtfLoops.ConvertUTF8toUTF32 | gflags_SimpleIni/dep/SimpleIni/ConvertUTF.c:462-520 | the same |
| UtfBuffers.Transcode | gflags_SimpleIni/dep/SimpleIni/ConvertUTF.c:61-520 | any of the six loops on a target of any size does what the conversion does |
| UtfBuffers.LoneHighOnBuffers | gflags_SimpleIni/dep/SimpleIni/ConvertUTF.c:119-143 | the loop itself on a source with a lone high surrogate |
| UtfBuffers.ConvertThereAndBack | gflags_SimpleIni/dep/SimpleIni/ConvertUTF.c:61-520 | the loops run on arrays give back the text they were given, for all three pairs of forms |
| UtfBuffers.ConvertBothWays | gflags_SimpleIni/dep/SimpleIni/ConvertUTF.c:61-520 | the loops run on arrays give the same text directly and by way of the third form |
| UtfBuffers.Transfers | gflags_SimpleIni/dep/SimpleIni/ConvertUTF.c:94-96 | a series of calls of the loops, each on what the one before left over, does what the series of conversions does |
| UtfBuffers.Finish | gflags_SimpleIni/dep/SimpleIni/ConvertUTF.c:243-249 | filling buffers with room for one character ends, and the loops have then written the encoding of the text |
| IniText.NeitherLess | gflags_SimpleIni/dep/SimpleIni/SimpleIni.h:2690-2724 | two names are the same exactly if neither is less |
| IniText.SameIsSameLetters | gflags_SimpleIni/dep/SimpleIni/SimpleIni.h:2690-2724 | without regard to case two names are the same exactly if they differ in the case of ASCII letters only |
| IniText.JoinOfSplit | gflags_SimpleIni/dep/SimpleIni/SimpleIni.h:2530-2552 | joining the lines of a text gives the text back |
| IniRoundTrip.ScanHeader | gflags_SimpleIni/dep/SimpleIni/SimpleIni.h:1566-1600 | a printed section header is found again, whatever follows |
| IniRoundTrip.ScanPair | gflags_SimpleIni/dep/SimpleIni/SimpleIni.h:1602-1667 | a printed key and value are found again, whatever follows, in one-line and in multi-line form |
| IniRoundTrip.TakeLines | gflags_SimpleIni/dep/SimpleIni/SimpleIni.h:1758-1817 | the lines of a value before its end tag are taken as they were printed, with either line end |
| IniRoundTrip.ScanTagged | gflags_SimpleIni/dep/SimpleIni/SimpleIni.h:1809-1839 | a value between any tag and its end is its lines exactly if there are any; with the end tag on the first line it is all the text behind the line of the key |
| IniRoundTrip.LoadKeys | gflags_SimpleIni/dep/SimpleIni/SimpleIni.h:1881-1982 | the printed keys of a section are loaded into it one after the other |
| IniRoundTrip.LoadSections | gflags_SimpleIni/dep/SimpleIni/SimpleIni.h:1473-1477 | the printed sections are loaded one after the other |
| IniRoundTrip.LoadOfPrint | gflags_SimpleIni/dep/SimpleIni/SimpleIni.h:2403-2526 | loading the printed text of a store gives the same sections, keys and values in the same order |
| IniRoundTrip.PrintIsStable | gflags_SimpleIni/dep/SimpleIni/SimpleIni.h:2403-2526 | printing again gives the identical text |
| IniComments.CommentLine | gflags_SimpleIni/dep/SimpleIni/SimpleIni.h:1560-1563 | a comment line ahead changes nothing about the next entry |
| IniComments.LoadPieces | gflags_SimpleIni/dep/SimpleIni/SimpleIni.h:1538-1667 | a text of headers, keys and lines that are blank or start with ; or # is loaded as its headers and keys say |
| IniComments.CommentsDoNotMatter | gflags_SimpleIni/dep/SimpleIni/SimpleIni.h:1412-1489 | a store is loaded from any text that has its headers, keys and values in order, whatever comments and blank lines stand before, between and behind them |
| IniComments.CommentTextIs | gflags_SimpleIni/dep/SimpleIni/SimpleIni.h:1758-1817 | the text of a comment is its lines, blank lines before its last line included if they are allowed, each with a single newline |
| IniBuffer.MoveLine | gflags_SimpleIni/dep/SimpleIni/SimpleIni.h:1782-1797 | cuts a line off and moves it down; nothing before its new place or behind its end is written |
| IniBuffer.CompactLine | gflags_SimpleIni/dep/SimpleIni/SimpleIni.h:1781-1821 | one line goes behind the lines done, unless it is the tag; the writing cursor never passes the reading one |
| IniBuffer.LoadMultiLineText | gflags_SimpleIni/dep/SimpleIni/SimpleIni.h:1730-1850 | the value is the lines before the tag joined by single newlines, whatever ended them, exactly if the tag is not on the first line, else it is all the text from there on; text ahead and tag are not clobbered and the cursor ends behind the tag line |
| IniBuffer.LoadComment | gflags_SimpleIni/dep/SimpleIni/SimpleIni.h:1758-1780 | a comment ends at the first line that is none, blank lines belonging to it only if more comment follows; its text stands in place with single newlines between its lines; the text behind it is intact |
| IniBuffer.CutAt | gflags_SimpleIni/dep/SimpleIni/SimpleIni.h:1647-1653 | ends a name or value in place behind its last character that is no space, and writes nothing else |
| IniBuffer.SectionLine | gflags_SimpleIni/dep/SimpleIni/SimpleIni.h:1565-1600 | the name of a section is cut out in place; a header without a closing bracket is skipped and nothing is written |
| IniBuffer.KeyPart | gflags_SimpleIni/dep/SimpleIni/SimpleIni.h:1602-1634 | the key is cut out in place; lines without a key are skipped and nothing is written |
| IniBuffer.ValuePart | gflags_SimpleIni/dep/SimpleIni/SimpleIni.h:1636-1663 | the value is cut out in place, or taken from the lines that follow |
| IniBuffer.FindEntry | gflags_SimpleIni/dep/SimpleIni/SimpleIni.h:1538-1667 | the next entry of the text is found at places behind the old cursor and before the new one; nothing before the old cursor is written, so the strings found earlier stay |
| IniStore.ListIsUnique | gflags_SimpleIni/dep/SimpleIni/SimpleIni.h:338-346 | the order of loading determines the list of a map |
| IniStore.OneOrder | gflags_SimpleIni/dep/SimpleIni/SimpleIni.h:338-353 | sections, keys and values of the two maps have one load order only, however it is recorded |
| IniStore.SortByOrder | gflags_SimpleIni/dep/SimpleIni/SimpleIni.h:2417-2425 | sorting the entries of a map by their numbers gives its list in load order |
| IniStore.LookUp | gflags_SimpleIni/dep/SimpleIni/SimpleIni.h:1905 | the section map finds, by folded name, the section that a search through the load order finds first |
| IniStore.NewSection | gflags_SimpleIni/dep/SimpleIni/SimpleIni.h:1915-1928 | a new section under the next number comes last, without keys |
| IniStore.NewEntry | gflags_SimpleIni/dep/SimpleIni/SimpleIni.h:1930-1981 | setting a key of a known section gives an old key its new value in its old place, and puts a new key last |
| IniStore.AddThenGet | gflags_SimpleIni/dep/SimpleIni/SimpleIni.h:1881-2018 | after an entry was added, its key has its value, and every other key of every section has what it had |
| IniStore.CaseOfNames | gflags_SimpleIni/dep/SimpleIni/SimpleIni.h:1986-2018 | without regard to case, names that differ in case only have the same value; with regard to it only a name equal letter by letter has one |
| IniFile.SimpleIni.AddSectionEntry | gflags_SimpleIni/dep/SimpleIni/SimpleIni.h:1904-1928 | creates the section under the next load number unless its folded name is there |
| IniFile.SimpleIni.AddKeyEntry | gflags_SimpleIni/dep/SimpleIni/SimpleIni.h:1930-1981 | sets a key in the map of its section, under the next load number if the key is new |
| IniFile.SimpleIni.GetValue | gflags_SimpleIni/dep/SimpleIni/SimpleIni.h:1986-2018 | the value of a key in a section by folded names, or none |
| IniFile.SimpleIni.Add | gflags_SimpleIni/dep/SimpleIni/SimpleIni.h:1881-1982 | creates the section if it is new; an existing key keeps its place and its name and gets the value; tells whether anything was inserted |
| IniFile.SimpleIni.LoadEntries | gflags_SimpleIni/dep/SimpleIni/SimpleIni.h:1473-1477 | adds entry after entry of the scan to the store: a key goes to the section before it, or to the string at a header without a closing bracket; what was found stays in its place, values that ran on aside |
| IniFile.SimpleIni.LoadData | gflags_SimpleIni/dep/SimpleIni/SimpleIni.h:1412-1489 | parses a text in a buffer of its own, up to its first NUL, on top of what is stored, for every text: what is stored is what the scans found, and every string added still stands in the buffer where it was found, values that ran on aside |
| IniFile.FirstLineTagRunsOn | gflags_SimpleIni/dep/SimpleIni/SimpleIni.h:1809-1839 | one such text: the value runs on into the next key, which the cursor is still before |
| IniFile.SimpleIni.OutputMultiLineText | gflags_SimpleIni/dep/SimpleIni/SimpleIni.h:2530-2552 | prints every line of a text, a last empty one included |
| IniFile.SimpleIni.IsMultiLine | gflags_SimpleIni/dep/SimpleIni/SimpleIni.h:1684-1715 | tells whether a value needs the multi-line form |
| IniFile.SimpleIni.Save | gflags_SimpleIni/dep/SimpleIni/SimpleIni.h:2403-2526 | prints all sections, keys and values in load order |
| IniFile.SimpleIni.Reload | gflags_SimpleIni/dep/SimpleIni/SimpleIni.h:1412-1489 | saving, loading in place and saving again gives the same store and the same text |
| RedeemCode.AlphabetInverts | RedeemCode/src/serialcode_parser.cc:40-146 | the alphabet and the character table undo each other; any other character is out of range |
| RedeemCode.TextThenValue | RedeemCode/src/serialcode_parser.cc:220-234 | the digits of a number in base 32 read back as the number |
| RedeemCode.ValueThenText | RedeemCode/src/serialcode_parser.cc:10-22 | a legal text is the digits of the number it denotes |
| RedeemCode.CodeToUint64 | RedeemCode/src/serialcode_parser.cc:10-22 | the accumulated number is the one the text denotes, or 0 for a text with an illegal character |
| RedeemCode.Uint64ToCode | RedeemCode/src/serialcode_parser.cc:220-234 | the text of a 40-bit number has its eight base-32 digits |
| RedeemCode.ScrambleInverts | RedeemCode/src/serialcode_parser.cc:162-165 | the scrambled serial number tells which key was used, as the low two bits of the keys permute the remainders modulo 4, so it can be undone |
| RedeemCode.FirstScrambled | RedeemCode/src/serialcode_parser.cc:162-165 | the first serial numbers scrambled, one for each key |
| RedeemCode.UnscrambleInverts | RedeemCode/src/serialcode_parser.cc:162-165 | every 22-bit number is the scrambled form of a serial number |
| RedeemCode.MaskInverts | RedeemCode/src/serialcode_parser.cc:167-169 | hiding the function id is undone by doing it again |
| RedeemCode.ZeroHasNoSign | RedeemCode/src/serialcode_parser.cc:215-218 | the check field of 0 is not 0, so a text with an illegal character is refused |
| RedeemCode.CreateRedeemCode | RedeemCode/src/serialcode_parser.cc:149-180 | a function id and serial number in range get their code, others the empty text |
| RedeemCode.CheckCodeValid | RedeemCode/src/serialcode_parser.cc:24-38 | accepts exactly the well-formed texts whose check field matches |
| RedeemCode.GetFunId | RedeemCode/src/serialcode_parser.cc:182-191 | reads the function id out of a text |
| RedeemCode.CreatedCodeIsValid | RedeemCode/src/serialcode_parser.cc:149-180 | a created code is accepted and gives back the function id and serial number it was made from |
| RedeemCode.ValidCodeWasCreated | RedeemCode/src/serialcode_parser.cc:24-38 | every accepted text is the code of a function id and serial number in range |
| RedeemCode.CodesAreABijection | RedeemCode/src/serialcode_parser.cc:149-191 | a text is accepted exactly if one and only one pair in range has it as its code, and the function id read out is that of the pair |
| RedeemTool.RedeemCodeTool.CreateCodes | RedeemCode/src/serialcode_parser.cc:331-361 | issues a whole batch of consecutive serial numbers, or nothing |
| RedeemTool.RedeemCodeTool.Load | RedeemCode/src/serialcode_parser.cc:263-284 | the history read back, with lines of function id 0 skipped and repeated ids refused |
| RedeemTool.RedeemCodeTool.Save | RedeemCode/src/serialcode_parser.cc:301-309 | what is written reads back as the map, less function id 0 |
| RedeemTool.RedeemCodeTool.Run | RedeemCode/src/serialcode_parser.cc:249-313 | one run changes history and issued codes as described, and succeeds exactly if the codes are in range and the files open |
| RedeemTool.NoCodeIsIssuedTwice | RedeemCode/src/serialcode_parser.cc:249-345 | over every sequence of runs, codes are all different exactly if no run issues codes of a function behind a run that issued some and did not get them into the history (function id 0, or a rewrite that failed); and exactly then each function gets 0, 1, 2 and so on |
| RedeemTool.SerialNumbersAreConsecutive | RedeemCode/src/serialcode_parser.cc:249-313 | so over every sequence of runs with function ids of at least 1 whose rewrites succeed, each function is issued 0, 1, 2 and so on, and no code twice |
| RedeemTool.OverlookingRepeats | RedeemCode/src/serialcode_parser.cc:268-300 | a run behind an unrecorded one writes a code a second time, or a run between them does |
| RedeemTool.RunAll | RedeemCode/src/serialcode_parser.cc:249-345 | the tool itself, run again and again on its history file, issues distinct codes exactly then |
| RedeemTool.FunctionZeroRepeats | RedeemCode/src/serialcode_parser.cc:268-271 | function id 0 is issued the same codes again by the next run, in any state |
| RedeemTool.FailedRewriteRepeats | RedeemCode/src/serialcode_parser.cc:294-300 | after a run that could not rewrite the history the next run issues the same codes again |
| RedeemTool.ZeroCountRun | RedeemCode/src/serialcode_parser.cc:251-302 | a first run for no codes records -1 as an unsigned number, and the next starts with 0 |

## Left out

- FormatString.FormatCommand: the conversions that `redisvFormatCommand` passes on to printf are not part of this model; a format that holds one has no tokens.
- FormatString.SplitFormat: the same.
- Reader.ReadLongLong: overflow of a long long is not modelled, here and in RoundTrip.LongLongOfSignedDecimal; streams are meant whose numbers fit.
- RoundTrip.LongLongOfSignedDecimal: integers are unbounded.
- Formatter.IntLen: integers are unbounded, so negating the least int does not overflow.
- Reader.RedisReader.ProcessBulkItem: lengths and counts are unbounded integers; their C types and overflow are not modelled. Reply objects are values, so sharing and freeing of them do not show.
- AsyncWorld.World.RunCallback: what the n-th callback does is any finite sequence of calls, given as a function of n; callbacks nest to any depth given beforehand; one that runs the event loop itself is not covered.
- AsyncWorld.World.UserAction: a context that a connection still waits for is not disconnected or freed by anybody else, since the connection never hands it out; what happens otherwise is FreeLeavesNoDanglingIffReleasable.
- AsyncWorld.World.AsyncCommand: commands that open a subscription or the monitor, and the delivery of their messages, are not part of this model; nor are connect and disconnect callbacks other than those of RedisConn.
- AsyncWorld.World.FreeContext: as for UserAction, and so for AsyncFree, DisconnectContext and AsyncDisconnect.
- AsyncWorld.World.AddRead: as for AddWrite.
- AsyncWorld.World.AddWrite: registration with the loop always succeeds here; refusals and the limit on descriptors are covered by EventLoop alone.
- AsyncWorld.World.Connect: destroying a RedisConn, and the text and number of errors, are left out.
- EventLoop.FileEvents.DeleteFileEvent: the kernel always accepts a modification or removal of a registered descriptor.
- Timers.TimerList.TimeProc: a callback that deletes the timer it was called for does not ask to run again, since the pass would then write to the freed node; finalizers do nothing.
- Timers.TimerList.ProcessTimeEvents: the clock does not run backwards during a pass, and the number of times callbacks ask to run again is any number given beforehand; without a bound a pass need not end.
- Dict.Table.NextPower: sizes of LONG_MAX and above.
- Dict.Table.Expand: sizes near LONG_MAX, duplication and destruction of keys and values, and `dictRelease` are left out.
- Linked lists (callback queue, timer list, hash chains) are sequences: relinking of nodes shows only in the order of the elements.
- The waiting time of a poll, and sleeping until the nearest timer.
- IniFile.SimpleIni.LoadData: strings are always copied when an entry is added, as in the source on every load but the first. A first load keeps pointers, which is the same for all strings that still stand at the end; a value that ran on is cut there by what is parsed behind it.
- IniFile.SimpleIni.AddKeyEntry: one value for a key only.
- IniFile.SimpleIni.Save: comments are not printed.
- IniFile.SimpleIni.Add: more than one value for a key, forced replacement and deletion are left out. The maps are keyed by the folded name; their own name order, which nothing saved shows, is not modelled.
- IniBuffer.LoadComment: the text of a comment is not kept in the store, and so not saved.
- Byte order marks, character conversion in the INI store, file access, and the numeric getters.
- UtfLoops.ConvertUTF32toUTF16: source and target are separate buffers; units are integers in their ranges rather than machine words.
- RedeemTool.RedeemCodeTool.Load: as for Save.
- RedeemTool.RedeemCodeTool.Save: the text format of the history file, file names and the command line; the history is a list of number pairs.
- Allocation failure, logging, and the remaining headers and libraries of the repository.
