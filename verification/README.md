# A bridge between IRC and Matrix, verified

The program logs one IRC client into a Matrix account. It keeps three conversations going at once: with the IRC client,
line by line; with the Matrix server, through a sync loop; and with the same server again, through a pipelining HTTP
client for requests. This project models the parts of it that hold state and proves what they promise.

`dafny verify dfyconfig.toml` checks everything.

## How it is built

Each stateful component exists twice: as a class with the fields, branches and loops of the source, and as functions on
values that say what a call does. Every method of a class ensures that it does what the function says; the theorems are
about the functions, and mostly about all runs of them.

- **HTTP** (`HttpSyntax`, `HttpFraming`, `HttpMessageLength`, `HttpParser`, `HttpStream`, `HttpMessage`,
  `HttpRequest`, `HttpPipeline`, `HttpDelivery`, `HttpClient`): the resumable response decoder against a one-shot
  decoder of the whole stream; its framing against section 3.3.3 of RFC 7230, which `HttpMessageLength` writes down by
  itself, final transfer codings, conflicting lengths and bodiless codes included; the octets of requests against a
  reference server that reads them by the same section; and the pipelining client with its queue, its reconnecting
  connection and its wake-ups, as a state machine that callers and polls interleave on, and that gets its requests
  answered (`HttpDelivery`).
- **IRC** (`IrcGrammar`, `IrcCommands`, `IrcLines`, `Hearing`, `IrcTransport`, `IrcSession`): the grammar of lines
  against the printing of lines, the bounded line reader and what it hears of a client, the write buffer with its
  cursor, and the user's connection, which answers some commands by itself. What the connection says is a list of
  typed lines, tied to the octets on the wire.
- **Matrix** (`MatrixEvents`, `RoomState`, `SyncClient`, `MatrixClient`): the chain of sync tokens against a server with
  a log, nested room state against a flat history, the table of members, and the dropping of echoes.
- **The bridge** (`Names`, `ServerModel`, `Mapping`, `MappingStore`, `Timeline`, `Bridging`, `ChannelLines`,
  `BridgeRuns`, `Nicks`, `Stories`, `Outgoing`, `Replies`, `LineEnds`, `Confluence`, `Bridge`): four maps between
  Matrix identifiers and IRC names, made-up names, channels, messages and joins. `Bridging` is the state machine; a
  run is any sequence of sync responses, answers to joins, and commands heard from the IRC client. `Stories` says what
  a channel gets to see over a whole run, `Outgoing` what Matrix gets to see, `Replies` what the client reads, `Nicks`
  what the names are like, and `LineEnds` when a line that is said is one line at the client.
- `Prelude`, `Text`, `Decimal`, `Utf8`, `Ordered` and `Network` are the vocabulary: octets, splitting, decimal numbers,
  UTF-8, the order in which maps are walked, and scripted reads.

A network is a script: a list of reads (non-empty data, or "would block") with an ending (open, closed, broken), a list
of outcomes of writes, and a list of outcomes of connection attempts. Theorems hold for every script.

## Where the code does not do what one would expect

Each of these is stated with the exact condition under which the code is right, or with the input that shows it wrong.

- A body that runs to the end of the connection is delivered empty, and its octets are left over as the next response
  (`HttpStream.ReadToEndBodyIsLost`).
- A Content-Length after a chunked Transfer-Encoding wins (`HttpFraming.LengthAfterChunkedIsTakenInstead`); codings
  are told by how the field begins, not by the last of them (`HttpMessageLength.CodingListsAreMisread`); and codes
  that never have a body are not looked at. `HttpMessageLength.FramingAgreesExactly` says for which fields the framing
  is right.
- A header of the caller that announces another length, or a transfer coding, makes a server lose the request
  (`HttpRequest.RequestRoundTrip`).
- Trailers of a chunked body are read as the beginning of the next response
  (`HttpMessage.TrailersLeakIntoNextResponse`).
- A write that would block costs the connection (`HttpPipeline.BlockedWriteIsFatalExactly`), and every request on it an
  error (`HttpPipeline.BlockedRequestIsCancelled`).
- Members of a room are refreshed only on events of a misspelt type, and nobody ever leaves the table
  (`RoomState.MembersStayRightExactly`, `RoomState.MembersAreThoseLastListed`, `RoomState.LeaverStaysListed`).
- So only those who were in some room when it first came down the sync have a nick, and only their messages are passed
  on (`BridgeRuns.KnownUsersExactly`).
- Of several joins that are answered before their room comes, only the last is redirected
  (`Stories.EveryAnswerCountsExactly`, `Stories.OverwrittenJoinIsLost`).
- The borrowed form of the command conversion panics on every numeric (`IrcCommands.ConversionsAgreeExactly`).
- An emote that goes from Matrix to IRC and back gains a space (`Bridging.EmotesGainASpace`).
- The topic line of a new channel is addressed to the server's name where the other numerics have the nick
  (`IrcSession.TopicIsMisaddressedExactly`).
- A nick may end in a blank that is no space, which is cut off at the end of a list of names
  (`IrcSession.NamesReadBackExactly`, `Nicks.NickThatIsCutOff`); and the own user's may have spaces in it
  (`Nicks.OnlyTheEndMatters`).
- Neither an alias nor a topic is sanitised, nor the identifiers in the answer to a WHO, so that a line feed in one
  makes two lines out of one (`LineEnds.LinesArriveAsSaidExactly`); and a character beyond the second plane in a name
  is more than the grammar takes (`Names.FreshNamesFitTheGrammarExactly`).

## Model

| member | source | states |
|---|---|---|
| HttpSyntax.HeadStable | src/http.rs:333-378 | a complete or refused response head stays what it is when more octets arrive |
| HttpSyntax.SizeStable | src/http.rs:429-446 | the same for a chunk-size line |
| HttpFraming.FieldsAreHeededByName | src/http.rs:342-366 | letter by letter: a field with one of three names, in any case, is taken for that field, and no other field is heeded; so with the letters of `chunked` |
| HttpFraming.FramesByName | src/http.rs:342-366 | which fields frame, by name in any case and by value |
| HttpFraming.TypeIsDeclared | src/http.rs:342-366 | the type of a response is that of its last Content-Type, in any case |
| HttpFraming.LastFramingFieldWins | src/http.rs:342-366 | the body is framed by the last header field that frames, whichever kind it is |
| HttpFraming.WithoutFramingToTheEnd | src/http.rs:342-366 | without a framing field the body has no known length |
| HttpFraming.ChunkedOverridesLengthExactly | src/http.rs:342-366 | the client's own rule: a chunked field makes it take the body as chunked if and only if no readable Content-Length comes after the last such field |
| HttpMessageLength.FramingAgreesExactly | src/http.rs:330-366 | for every code and all fields, in any case, the framing is that of section 3.3.3 of RFC 7230 if and only if the fields fit: where that section finds no body, a length or a coding, the last field that the client heeds says the same |
| HttpMessageLength.CodingListsAreMisread | src/http.rs:342-366 | every list of `chunked` and a coding that does not begin with it, with parameters or without but with nothing quoted, is framed the wrong way round |
| HttpFraming.LengthAfterChunkedIsTakenInstead | src/http.rs:342-366 | the order of two fields decides the framing: a head that shows the disagreement |
| HttpParser.StepAppend | src/http.rs:315-473 | what the decoder decides on the octets it has, it also decides when more follow, which are then left over |
| HttpParser.NothingIsExposedEarly | src/http.rs:315-473 | a response is delivered only once its last octet has arrived |
| HttpParser.HttpParser.PollForResponse | src/http.rs:315-473 | one call, over any reads, is exactly one poll of the specification: result, state, buffer, partial response, and what was read |
| HttpParser.HttpParser.ReadIntoVec | src/http.rs:531-534 | a read appends the next piece of the stream, or says that it would block, has ended or failed |
| HttpParser.HttpParser.InterpretHead | src/http.rs:330-381 | a complete head sets code, content type and framing by applying its fields in order |
| HttpParser.HttpParser.PollRawData | src/http.rs:393-427 | one pass through the state of plain bodies |
| HttpParser.HttpParser.PollChunked | src/http.rs:428-470 | one pass through the state of chunked bodies |
| HttpStream.PollDecodes | src/http.rs:315-473 | one poll is the first step of decoding everything that is in the buffer or still to arrive |
| HttpStream.FragmentationIndependence | src/http.rs:315-473 | for every stream and every way of cutting it into reads, repeated polls give the responses, the final error and, in every case, the leftover of a one-shot decoder |
| HttpStream.ResponsesOnlyGrow | src/http.rs:315-473 | what was decoded from the octets so far is a prefix of what will be decoded |
| HttpStream.ReadToEndBodyIsLost | src/http.rs:393-419 | a response without framing is delivered with an empty body, and its body is left in the buffer |
| HttpMessage.SizeLineReadsBack | src/http.rs:429-446 | the plain size line of every chunk is read as that size |
| HttpMessage.ExtendedSizeLineReadsBack | src/http.rs:429-446 | so is one with blanks and any extension |
| HttpMessage.HexDigitsExactly | src/http.rs:429-446 | the digits of a size are read in either case, and nothing else is |
| HttpMessage.ChunkedRoundTrip | src/http.rs:428-470 | for all chunks, the data delivered is their concatenation and exactly the octets after the body are left over |
| HttpMessage.ChunkedBodyIsNeverPartial | src/http.rs:428-470 | on every proper prefix of a chunked body nothing is delivered |
| HttpMessage.CanonicalChunks | src/http.rs:428-470 | the chunks of section 4.1 of RFC 7230 are among those the round trip is about |
| HttpMessage.TrailersLeakIntoNextResponse | src/http.rs:430-437 | the next response is left intact if and only if there are no trailer fields; others end up in front of it |
| HttpMessage.HeadRoundTrip | src/http.rs:330-381 | a printed head is read back with its code and its fields, up to the octets after it |
| HttpMessage.MessageRoundTrip | src/http.rs:315-473 | a whole response reads back as what it means, and what follows is left over |
| HttpMessage.StreamRoundTrip | src/http.rs:315-473 | the same for any number of pipelined responses |
| HttpMessage.EveryFragmentationDeliversTheMessages | src/http.rs:315-473 | for every fragmentation of a well-formed stream the polls deliver its responses, in order and nothing else |
| HttpMessage.ServersAreUnderstood | src/http.rs:315-473 | so are the responses of every server whose heads announce their bodies by section 3.3.3 of RFC 7230 and fit |
| HttpMessage.CutMessageIsNoticed | src/http.rs:315-473 | of a message that is cut off anywhere nothing is delivered, and the error says whether nothing, part of the head, or part of which kind of body had come |
| HttpMessage.CutStreamIsNoticed | src/http.rs:315-473 | the same after any number of whole messages, which are all delivered |
| HttpRequest.LengthReadsBack | src/http.rs:228-248 | section 3.3.3 of RFC 7230 finds the true length of the body if and only if the caller adds no other length and no transfer coding |
| HttpRequest.RequestRoundTrip | src/http.rs:228-248 | for any request at all, a server recovers it and finds the next one behind it if and only if it is well-formed and the caller adds no other length and no transfer coding |
| HttpRequest.StreamReadsBack | src/http.rs:228-248 | the concatenation of any requests that can each be recovered is read back as those requests |
| HttpRequest.UniquelyDecodable | src/http.rs:228-248 | two lists of recoverable requests with the same octets are the same list |
| HttpRequest.ServerSeesAPrefix | src/http.rs:228-281 | however far writing has got, a server has seen the first requests and nothing else |
| HttpPipeline.RequestsAreConserved | src/http.rs:82-297 | over every run each request is exactly once told its result, in flight, or queued, and these are consecutive stretches of the sending order |
| HttpPipeline.ResponsesFollowRequests | src/http.rs:250-297 | on each failed connection the k-th response answered the k-th request, all others were cancelled with its error, and connections took consecutive blocks; after an error of the decoder the answers are all the responses that its octets hold, and after a response too many every request had been answered |
| HttpPipeline.LiveResponsesFollowRequests | src/http.rs:250-281 | the same on the live connection, which has cancelled nothing; between polls the answers are exactly the responses that can be decoded from what has arrived |
| HttpPipeline.ServerReadsTheBlock | src/http.rs:228-281 | what a server can read from the live connection is a prefix of the block of requests it took |
| HttpPipeline.EveryServerReadItsBlock | src/http.rs:228-297 | the same for every connection that has failed; the blocks follow each other without overlap |
| HttpPipeline.NoLostWakeUp | src/http.rs:82-190 | between polls a queued request means that a connection attempt is under way or the task was notified since the last drain |
| HttpPipeline.PollEndsExactly | src/http.rs:156-190 | a poll ends if and only if an attempt to connect is pending or a read would block; a refused attempt is followed by the next at once |
| HttpDelivery.EveryRequestIsAnswered | src/http.rs:82-297 | whatever attempts fail before, and however the answers are cut: on a connection that takes the requests and gives enough responses, a task that is polled again whenever it waits comes to tell every request its response, and has written exactly the requests |
| HttpDelivery.EveryRequestGetsItsMessage | src/http.rs:82-297 | with well-formed messages for answers, their codes, types and bodies |
| HttpPipeline.BlockedWriteIsFatalExactly | src/http.rs:266-268 | a blocked write spares the connection if and only if there was nothing to write |
| HttpPipeline.BlockedRequestIsCancelled | src/http.rs:266-297 | a run from the start: a request on a connection that blocks at once ends with that error, whatever the server has sent |
| HttpClient.HttpClientHandler.WriteRequest | src/http.rs:228-248 | the octets of a request are appended to what is still to be written |
| HttpClient.HttpClientHandler.TakeRequests | src/http.rs:250-264 | the whole queue is put in flight, in order |
| HttpClient.HttpClientHandler.PollInner | src/http.rs:250-281 | the polling loop goes through the transitions of the state machine |
| HttpClient.HttpClientHandler.Poll | src/http.rs:287-297 | an error cancels everything in flight |
| HttpClient.ReconnectingStream.Poll | src/http.rs:156-190 | connecting, polling and reconnecting go through the transitions of the state machine |
| HttpClient.HttpClient.SendRequest | src/http.rs:82-93 | a request is queued last and the task is notified |
| IrcGrammar.ClassesLeaveOut | src/irc/protocol.rs:338-386 | the characters of words, parameters and texts, by those they leave out |
| IrcGrammar.PrintedLinesParse | src/irc/protocol.rs:338-386 | every well-formed line, with any spaces between its parts, is parsed into exactly those parts |
| IrcGrammar.AcceptedLinesArePrinted | src/irc/protocol.rs:338-386 | every accepted text is a printing of what it was parsed into |
| IrcGrammar.GrammarIsExact | src/irc/protocol.rs:338-386 | a text is parsed into a line if and only if it is a printing of that well-formed line |
| IrcGrammar.DecompositionIsUnique | src/irc/protocol.rs:338-386 | two lines with a printing in common are the same line |
| IrcCommands.CommandRoundTrip | src/irc/protocol.rs:248-302 | any word survives conversion to a command and back if and only if it was recognised, or is the word that unknown commands are given |
| IrcCommands.DigitsAreNumeric | src/irc/protocol.rs:248-280 | three digits are the numeric they spell |
| IrcCommands.ConversionsAgreeExactly | src/irc/protocol.rs:214-280 | the borrowed conversion agrees with the other except on numerics, where it always panics |
| IrcCommands.CommandsAreUnderstood | src/irc/protocol.rs:72-165 | a line that says a command, in any spacing, is understood as that command |
| Hearing.LinesMean | src/irc/protocol.rs:72-165 | every line of the grammar means the command that its name and its arguments say, and a line with another name means none |
| IrcCommands.UnderstoodCommandsWereSaid | src/irc/protocol.rs:72-193 | whatever was understood was said, with its words first among the arguments |
| IrcLines.FragmentationIndependence | src/irc/transport.rs:127-171 | the commands delivered and the outcome depend only on the octets, not on how they were cut into reads |
| IrcLines.CompleteLinesAreDelivered | src/irc/transport.rs:127-171 | every complete readable line is delivered once and in order, unparsable ones being left out |
| Hearing.BlanksAreWhiteSpace | src/irc/transport.rs:133 | what is trimmed off a line are the characters with the property White_Space |
| Hearing.LineIsHeard | src/irc/transport.rs:127-150 | a line is heard as the command that its text is, whatever blanks, a CR among them, stand between the text and the LF |
| Hearing.EveryClientIsHeard | src/irc/transport.rs:127-171 | any number of lines of the grammar that carry commands, each ended by LF or CR LF, with spaces before or without, are read as exactly those commands, in order |
| Utf8.DecodesExactly | src/irc/transport.rs:129-150 | octets are accepted as a text if and only if they are what that text is written as |
| Utf8.ExamplesOfTheStandard | src/irc/transport.rs:129-150 | the octets of the examples of section 7 of RFC 3629 |
| IrcLines.RefusedExactly | src/irc/transport.rs:129-150 | reading gives up on a line if and only if there is no text that is written as its octets |
| IrcLines.ReadingStopsThere | src/irc/transport.rs:141-150 | reading stops at the first line that is no UTF-8 or the first 2048 octets without a line end, after everything before it |
| IrcLines.UnfinishedLineIsDropped | src/irc/transport.rs:152-158 | an unfinished line at the end of the stream is dropped |
| IrcLines.PollHears | src/irc/transport.rs:127-171 | one poll delivers the first command among all that has arrived, and stops without one only where nothing more can be read |
| IrcLines.ProgressWritesAll | src/irc/transport.rs:173-203 | a socket that takes something every time takes everything |
| IrcLines.SentLinesAreAPrefix | src/irc/transport.rs:49-66 | the lines that can be made out in the octets sent are the first of the lines written |
| IrcTransport.IrcServerConnection.PollWrite | src/irc/transport.rs:173-203 | exactly what the socket took is sent and no longer pending; nothing is lost, repeated or reordered |
| IrcTransport.IrcServerConnection.WriteLine | src/irc/transport.rs:49-66 | the line and its end are added behind everything else, and the writing task is notified |
| IrcTransport.IrcServerConnection.PollRead | src/irc/transport.rs:127-171 | one call is one poll of the specification; the buffer never exceeds 2048 octets |
| IrcTransport.IrcServerConnection.Poll | src/irc/transport.rs:210-228 | writing first, then reading; at the end of the stream it ends |
| IrcTransport.IrcServerConnection.PeerSeesTheFirstLines | src/irc/transport.rs:49-66 | at any moment the peer can make out the first lines written and nothing else, and all of them when nothing is pending, if no line has a line feed in it |
| Text.SplitRejoins | src/irc/mod.rs:185-199 | the pieces of a text hold no separator and rejoin to the text |
| Text.RejoinSplits | src/irc/mod.rs:185-199 | there is only one way to take a text apart like this |
| IrcSession.SaidIsUnderstoodExactly | src/irc/mod.rs:185-190 | sender, channel and text are recovered from the line of a message if and only if the names are words of the grammar and the text has none of the characters it excludes |
| IrcSession.NamesReadBackExactly | src/irc/transport.rs:111-119 | a reader of a list of names finds those names, operators marked, in order, if and only if no nick has a space in it and the last one does not end in a blank |
| IrcSession.BlankIsCutOff | src/irc/transport.rs:111-119 | with a no-break space at its end, the name is sent without it |
| IrcSession.TopicIsMisaddressedExactly | src/irc/mod.rs:156-183 | the numerics that open a channel can all be read as addressed to the user if and only if the topic's line goes on with the nick after its code; for names without spaces, if and only if the server is called like the user; all but the topic always are |
| IrcSession.JoinNamesEveryMember | src/irc/mod.rs:156-183 | the lists sent when a channel opens are about every member exactly once, in order, ten at most in each, and exactly from those that read back can the names be told |
| IrcSession.HeardIsWhatWasSent | src/irc/mod.rs:281-315 | a poll hears exactly the next commands of the client's stream, for every fragmentation |
| IrcSession.UserHears | src/irc/mod.rs:281-315 | and it hears all that has arrived, up to the command that it passes on or the read that blocks |
| IrcSession.IrcUserConnection.Poll | src/irc/mod.rs:281-315 | says the answers to all it heard, in order, and returns the first command that it cannot answer |
| IrcSession.IrcUserConnection.Handle | src/irc/mod.rs:284-311 | the answer to each kind of command, and whether it is passed on |
| IrcSession.IrcUserConnection.AddChannel | src/irc/mod.rs:151-154 | a new channel is known, with its members, and opened for the client |
| IrcSession.IrcUserConnection.AttemptToWriteJoinResponse | src/irc/mod.rs:156-183 | the opening of a channel is said if and only if the channel is known |
| IrcSession.IrcUserConnection.WriteNames | src/irc/transport.rs:111-125 | the lists of names, in tens, and their end |
| IrcSession.IrcUserConnection.SendMessage | src/irc/mod.rs:185-190 | one line for each line of the text, and nothing else |
| IrcSession.IrcUserConnection.SendAction | src/irc/mod.rs:192-199 | the same, as actions |
| RoomState.LastWriterIsLast | src/matrix/models.rs:28-94 | the last writer of a history is the event of that type and key after which there is none |
| RoomState.TimelineComesAfterState | src/matrix/models.rs:28-94 | after a sync, or in a new room, what is filed is the last event of that type and key in the timeline, or else in the state of the sync, or else what there was |
| RoomState.StateIsLastWriterWins | src/matrix/models.rs:28-94 | after any syncs the nested maps answer with the event of that type and key that comes last, by sync, then by part with the timeline after the state, then by index; and with nothing if and only if there never was one |
| RoomState.MembersOfANewRoom | src/matrix/models.rs:28-147 | a new room lists exactly the users whose last membership, the timeline after the state, is join, with the name they gave, and as moderators those whose power in the last levels is a number from 50 on |
| RoomState.MembersStayRightExactly | src/matrix/models.rs:63-147 | when one update keeps right a table that was right: an if and only if on what the sync says |
| RoomState.MembersAreThoseLastListed | src/matrix/models.rs:28-147 | after any syncs, a user is listed if and only if some refresh found them joined, and as the last such refresh did |
| RoomState.MembersStayAsTheyWere | src/matrix/models.rs:63-94 | without events of the misspelt type the table is for ever that of the first sync |
| RoomState.LeaverStaysListed | src/matrix/models.rs:96-147 | a member who leaves stays listed |
| RoomState.Room.FromSync | src/matrix/models.rs:28-61 | makes the room that the specification says |
| RoomState.Room.UpdateFromSync | src/matrix/models.rs:63-94 | updates the room as the specification says, the condition for a refresh included |
| RoomState.Room.RecalculateMembers | src/matrix/models.rs:96-147 | adds or replaces the members that the state derives, and takes nobody out |
| RoomState.Room.Moderators | src/matrix/models.rs:97-113 | exactly the users with a level of at least 50 |
| SyncClient.ReturnedIsPassedOn | src/matrix/sync.rs:117-121 | a poll records as passed on exactly what it returns |
| SyncClient.PollTurnsOut | src/matrix/sync.rs:60-123 | by the first event that is no lost answer a poll waits, fails, or returns the stretch of the log from where its token points to where the server went |
| SyncClient.EveryUpdateExactlyOnce | src/matrix/sync.rs:60-123 | whatever fails, the answers that the polls return are consecutive stretches of the server's log without gap or repetition, every request asks for what follows them, and at most one is outstanding |
| SyncClient.EveryPollGoesOn | src/matrix/sync.rs:60-123 | a poll that returns anything returns what comes next in the log after all that was returned before |
| SyncClient.MatrixSyncClient.PollSync | src/matrix/sync.rs:60-123 | one call is one poll of the specification |
| MatrixClient.RoomsFollowTheirSyncs | src/matrix/mod.rs:211-235 | after any responses the rooms are those mentioned, and each is what its own syncs, without echoes, made of it |
| MatrixClient.EchoesExactly | src/matrix/mod.rs:215-221 | an event is an echo if and only if its transaction identifier begins with `mircd-` |
| MatrixClient.OwnMessagesAreEchoes | src/matrix/mod.rs:140-155 | so every message of the client's own is one when it comes back |
| MatrixClient.MatrixSession.TakeResponse | src/matrix/mod.rs:211-235 | echoes are dropped and every room of the response is created or updated, whatever the order |
| MatrixClient.MatrixSession.Retain | src/matrix/mod.rs:215-221 | exactly the events that are no echoes, in order |
| Names.CandidatesDiffer | src/bridge/mod.rs:380-390 | different suffixes make different names |
| Names.LeastFreeExists | src/bridge/mod.rs:380-390 | among the first n + 1 suffixes one is free when n names are taken |
| Names.FindFreshName | src/bridge/mod.rs:452-462 | the search ends within n + 1 probes with a name not in use, the name itself or the one with the least free suffix |
| Names.SanitisedIsTheRest | src/bridge/mod.rs:434-450 | a sanitised name is the text without control characters, spaces and the five marks |
| Names.SanitisedNamesFitTheGrammar | src/bridge/mod.rs:434-450 | a sanitised name can stand in a line if it has no character beyond the second plane |
| Names.FreshNamesFitTheGrammarExactly | src/bridge/mod.rs:434-462 | so can the name made of it, with a suffix or without, if and only if it has no such character; and it is empty only if the base is and is free |
| ServerModel.WithChannelConsistent | src/irc/models.rs:72-109 | a new channel leaves users and channels in agreement about who is where |
| ServerModel.WithUserConsistent | src/irc/models.rs:60-70 | so does a new user |
| ServerModel.ServerState.AddChannel | src/irc/models.rs:72-109 | the channel, its entries, and the channel in the entries of its members |
| ServerModel.ServerState.GetMembers | src/irc/models.rs:115-131 | all members, which are always known users |
| Mapping.GetNicksKeeps | src/bridge/mod.rs:397-410 | registering members one after the other keeps the maps consistent while a channel is half made, and lists each under the nick of that user |
| Mapping.GetChannelKeeps | src/bridge/mod.rs:346-422 | finding or opening a channel keeps all maps consistent and every name as it was; a new channel has a name not in use |
| Mapping.ChannelIsCalled | src/bridge/mod.rs:346-422 | a new channel is called by the last alias of its first sync, or else by what remains of its last name, or else by its identifier, with a number if that is taken, and has the last topic |
| Mapping.NewChannelListsTheMembers | src/bridge/mod.rs:397-421 | a new channel is in bijection with the members of its room, with operators the moderators, and different users have different nicks |
| Mapping.ChannelShowsWhoJoined | src/bridge/mod.rs:346-422 | from the first sync of a room to its channel: in it are exactly the users whose last membership is join, operators those with power 50 |
| MappingStore.Mappings.InsertNick | src/bridge/mod.rs:325-336 | a user and a nick are paired in both maps and on the IRC side |
| MappingStore.Mappings.CreateOrGetNickFromMatrix | src/bridge/mod.rs:424-470 | the user's nick, or a fresh one made from the name shown or the identifier |
| MappingStore.Mappings.CreateOrGetChannelNameFromMatrix | src/bridge/mod.rs:346-422 | the room's channel, or a new one with all members in it, opened for the client; neither panic can happen |
| Timeline.EventIsSaid | src/bridge/mod.rs:222-268 | what each event makes the bridge say: nothing, or lines in the sender's name, wrapped if it is an emote, that rejoin to its text or to the address of its file |
| Timeline.ContentIsRecovered | src/irc/mod.rs:185-199 | different contents are said in different lines |
| Timeline.TimelineIsSaid | src/bridge/mod.rs:222-268 | a sync says, in the order of its timeline, what its messages say that are no echoes, from known senders and complete |
| Bridging.EmotesGainASpace | src/bridge/mod.rs:55-64 | an emote said by the bridge and repeated by a client comes back with a space more, never as it was |
| Outgoing.EverythingSaidGoesOut | src/bridge/mod.rs:125-168 | over every run, given the names that the bridge has made up: what is sent to Matrix is, in order, one message for each thing said in the channel of a room mentioned by then, an action unwrapped as an emote and anything else as it is; and the rooms asked for are, in order, the channels to be joined that were not open |
| Outgoing.OneWayToSend | src/bridge/mod.rs:55-65 | there is only one message that can be sent for a text |
| Outgoing.QuietBeforeTheFirstSync | src/bridge/mod.rs:275-291 | before the first sync nothing is sent, asked for or said |
| Outgoing.GreetedOnce | src/bridge/mod.rs:186-204 | the client is greeted with the first sync, and a later sync about no room says nothing |
| Replies.RedirectReadsBack | src/irc/mod.rs:205-214 | a client reads a redirect as numeric 470 with what it asked for and then what it gets |
| Replies.OpeningIsSeen | src/irc/mod.rs:156-183 | a client reads the opening of a channel as its join, the topic, the names with the operators marked, the end of the lists and the mode |
| Replies.WelcomeIsSeen | src/irc/transport.rs:68-109 | a client reads the greeting as a welcome and the message of the day |
| Replies.AnswersAreSeen | src/irc/mod.rs:284-311 | a client reads the answer to each command as the protocol has it: a pong, an opening, everybody in a channel, a mode, or nothing |
| Replies.HeardIsAnswered | src/bridge/mod.rs:275-291 | after the first sync every command is answered so and nothing else is said, and before it nothing |
| Replies.AwayIsSeen | src/irc/mod.rs:229-243 | with a message the client is told that it is away, without one that it is back |
| BridgeRuns.TheMapsAlwaysAgree | src/bridge/mod.rs:325-470 | in every reachable state the pairs of maps are inverse, their IRC sides are what the IRC side knows, and users and channels agree |
| BridgeRuns.EveryRoomHasAChannel | src/bridge/mod.rs:186-213 | at any time the rooms with channels are those the Matrix client knows, so that none is missing when a sync is handled |
| BridgeRuns.ChannelsOfMentionedRooms | src/bridge/mod.rs:206-213 | a room has a channel from the first sync on that mentions it, and not before |
| BridgeRuns.NamesAreForever | src/bridge/mod.rs:325-470 | rooms keep their channels and users their nicks over every run |
| BridgeRuns.KnownUsersExactly | src/bridge/mod.rs:397-470 | who has a nick at any time: the own user, and exactly those in some room when it first came |
| Nicks.NewNickIs | src/bridge/mod.rs:424-470 | the nick of an unknown user has no dropped character, fits the grammar exactly if its base has nothing beyond the second plane, and can end a list exactly if it was numbered or its base can |
| Nicks.NickThatIsCutOff | src/bridge/mod.rs:434-450 | a display name whose nick is sent cut |
| Nicks.NicksAreMadeUp | src/bridge/mod.rs:424-470 | in every reachable state every nick but the bridge's own was made from a display name or an identifier |
| Nicks.NicksAlwaysLack | src/bridge/mod.rs:434-470 | over every run, whatever people call themselves, no nick but the own user's has a character that is to be dropped |
| Nicks.OnlyTheEndMatters | src/irc/transport.rs:111-125 | in every reachable state, a list of names can be read if and only if the last name in it does not end in a blank and is not empty unseen, and the own user is not in it under a nick with a space |
| ChannelLines.HandleRoomsAbout | src/bridge/mod.rs:186-273 | of all rooms of a sync only one speaks about its channel, with the names as they are at its turn |
| ChannelLines.SyncAbout | src/bridge/mod.rs:186-273 | a sync gives every room it mentions a channel, stops waiting for it, and says about its channel only what its own sync calls for |
| Stories.EveryChannelTellsItsStory | src/bridge/mod.rs:125-273 | over every run, given the names that the bridge has made up, the redirects and messages a channel sees are, in order, those computed from the actions; until then the last name asked for is waited for |
| Stories.EveryAnswerCountsExactly | src/bridge/mod.rs:146-168 | every answered join is redirected as it should be if and only if the earlier early ones asked for the channel's own name; with at most one outstanding always |
| Stories.OverwrittenJoinIsLost | src/bridge/mod.rs:163-166 | of two joins answered before the room comes the first gets no redirect, and one was due if and only if it asked for another name than the channel's |
| LineEnds.HeardCommandsAreFlat | src/irc/protocol.rs:72-193 | no command that is understood has a line feed in it |
| LineEnds.OpeningIsFlatExactly | src/irc/mod.rs:156-183 | the opening of a channel is free of line feeds if and only if its name and its topic are |
| LineEnds.SaidInLinesExactly | src/bridge/mod.rs:125-273 | over every run, whatever messages and display names hold, all that is said is free of line feeds if and only if every room first came with a name and a topic that are and no WHO was heard about a channel with somebody whose identifier is not; the own user's names, the server's name and what the client says are taken to be |
| LineEnds.WhoIsFlatExactly | src/irc/mod.rs:224-252 | the answer to a WHO is free of line feeds if and only if the identifiers of all in the channel are |
| LineEnds.LinesArriveAsSaidExactly | src/irc/transport.rs:49-66 | under that condition, and only then, the client makes out of the octets the lines that were said; and before all is sent, the first of them |
| Confluence.JoinAndSyncCommute | src/bridge/mod.rs:146-220 | answer and sync in either order lead to the same state and the same lines, with exactly one redirect if the names differ and none otherwise |
| BridgeSession.Session.Create | src/bridge/mod.rs:71-123 | a new bridge knows its own user and nothing else |
| BridgeSession.Session.PollMatrix | src/bridge/mod.rs:186-204 | a response is taken in, greeted the first time, and handled room by room, as the state machine says |
| BridgeSession.Session.HandleRoomSync | src/bridge/mod.rs:206-273 | one room: its channel, its redirect, its messages |
| BridgeSession.Session.JoinReplied | src/bridge/mod.rs:146-168 | the answer to a join redirects, waits, or does nothing |
| BridgeSession.Session.HandleIrcCmd | src/bridge/mod.rs:125-184 | messages are sent to the room of their channel, joins are asked for, away is acknowledged |
| BridgeSession.Session.PollIrc | src/bridge/mod.rs:275-291 | nothing is heard before the first sync; then exactly the commands in what has arrived up to the first read that blocks, in order, and each is handled, unless the socket fails at a write |

## Left out

- The `httparse`, `netbuf`, `pest`, `serde_json`, `url`, `regex` and `tokio` libraries are not part of this model. In their
  place stand a concrete scanner of response heads (at most 32 fields) and of chunk sizes, a buffer of octets, the
  grammar written out as functions, plain data for events, and scripts for the network.
- HttpParser.HttpParser.PollChunked: the arithmetic on chunk sizes is on unbounded numbers, so that overflow of the
  machine's word size is not modelled.
- HttpPipeline.NoLostWakeUp: a request that was written only in part waits for the next poll; no promise is made about
  when that comes, because the code makes none.
- HttpClient.ReconnectingStream.Poll: attempts to connect follow each other at once, as in the code, which has no backoff.
- IrcCommands.FromString: `str::parse` for 16-bit numbers is written out; the remaining conversions of text are those of
  UTF-8, where an invalid sequence is refused as a whole.
- HttpFraming.IsChunked: lower-casing of characters outside ASCII is modelled only where it can yield a letter of
  "chunked".
- RoomState.Room.FromSync: a state event without a state key ends the program; the model requires that there is none.
- Names.FindFreshName: one method stands for the two loops that look for a suffix; the source counts in 32 bits, which
  is not modelled.
- HttpMessageLength.ResponseBody: answers to HEAD and CONNECT, which are framed by their request, are not considered; the
  program sends neither.
- HttpRequest.ReadRequest: the reference server takes a request with more than one Host field.
- Names.SanitisedNamesFitTheGrammar: an alias is used as a channel name as it is, so that nothing of the kind holds for it.
- LineEnds.SaidInLinesExactly: the names of the own user and the server are taken to be free of line feeds, and so is what
  the client says, as the grammar sees to (LineEnds.HeardCommandsAreFlat); a run may contain answers to joins that nobody
  asked for, whose names are taken to be like it.
- HttpPipeline.ResponsesFollowRequests: nothing more is said of a connection on which a write failed, because responses
  that have arrived by then may be lost (HttpPipeline.BlockedRequestIsCancelled).
- SyncClient.EveryUpdateExactlyOnce: the updates of the server's log are of any type; taking a response apart into rooms
  is modelled separately, in the Matrix client.
- Bridging.Reply: a join that the server refuses is not modelled; the code has a note that it should be handled.
- BridgeSession.Session.HandleIrcCmd: the address of a message and the number that marks it as the bridge's own are made
  by libraries; the model keeps which text goes to which room.
- Timeline.EventOuts: the address of a file is a function given to the model.
- IrcSession.IrcUserConnection.Poll: after a failed write the connection is given up, and nothing is said about how much
  of the input had been read by then.
- Login, the waiting for nick and password, the tables of numerics, logging, TLS and the start of the program.
- IRC's rule that names differing only in case are the same: the code does not follow it.
