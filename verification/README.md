# Object storage server: a verified model

The repository is an in-memory file server that speaks HTTP and FTP on one port. Each client has a
*session*. A session runs its handlers on two strands, one for the control socket and one for the FTP
data sockets, and all sessions share one file store and one user table. This project models the parts
that have to be right under concurrency, together with the wire formats they depend on, and proves what
they keep in every run.

How it is built:

* **Codecs.** `Utils`, `Base64`, `Decimal`, `HttpParser`, `HttpResponse` and `FtpParser` hold the
  program's loops and in-place transformations as methods, each proved against a specification function.
  `HttpRequests`, the second half of `HttpResponse`, and parts of `Base64`, `Listing` and `FtpCommands`
  hold the inverses (printer, stream decoder, encoder, reply reader) and the round trips.
* **Machines.** `ControlPump` and `DataPump` are the two output pumps, `Upload` is one STOR transfer,
  `FtpCommands` and `HttpHandlers` are the command handlers, all as functions on values.
  `SessionModel` puts them together: one session, in which strand tasks, accepts, read and write
  completions are separate steps that happen in any order.
* **Behaviour.** `FtpCommands`, `HttpHandlers` and `HttpAdmission` say for each command and request when it
  succeeds and what it does then; `SessionLines` says the same of the bytes a session reads.
* **Invariants.** `SessionInvariants` and `SessionHistories` prove what every step of a session keeps;
  `SessionRuns`, `SessionTransfers` and `SessionProgress` draw the conclusions for whole runs, and
  `SessionExamples` holds runs from the start that show what can go wrong; `SessionStore`,
  `StoreHistory`, `Server`, `ServerProperties`, `ServerAnswers`, `ServerOutcomes` and `ServerCommands` do the same for
  any number of interleaved sessions on the shared store and user table.
* **The object.** `Session` is the session as a class whose handlers update its queues, buffers, login
  state and working directory in place. Its `On…` methods are what the strands and the network call;
  each is proved to take exactly one step of the machine and to keep its whole invariant, so everything
  proved about the machine holds of the object. `MemoryFs` and `UserDatabase` are the shared objects.

Message tags (`Messages.Tag`) and the fields marked as histories only record what happened: no step
looks at them.

Some laws one would expect do not hold of the code without a condition. Each is stated as an
if-and-only-if, with the input that fails:

* Splitting a join (`Utils.TokensOfJoinIff`, `Utils.LoneEmptyToken`): for a delimiter without proper
  border the tokens come back exactly if none holds the delimiter and they are not the single empty token, which becomes
  no tokens. `Utils.SplitUndoesJoinIff` says for which delimiters this is so.
* Base64 (`Base64.EncodeOfDecodeIff`, `Base64.LooseTextDecodes`): the decoder accepts more than canonical
  texts, so encoding undoes decoding exactly on the canonical ones; "QR==" is not one.
* Header values (`HttpRequests.ValueSurvivesIff`, `HttpRequests.HostIsCut`): a value is kept up to its first ':', so it
  survives exactly if it holds none; "Host: localhost:8080" is kept as "localhost".
* Request heads (`HttpRequests.HeadIsRequestIff`): the program reads the request line up to its CRLF and the rest up to
  an empty line, so a request without any header line is never cut out whole.
* Credentials (`HttpRequests.BasicAuthIff`): the decoded pair is split at every ':', so it is recovered exactly if neither
  name nor password holds one.
* Detection (`SessionLines.DetectedIff`, `SessionLines.HttpNameIsTaken`): a line is taken for an HTTP request exactly if it
  mentions HTTP, and so is the command line "STOR HTTP.txt".
* Downloads (`DataPump.StallsIff`, `DataPump.RestsDeliveredIff`, `SessionExamples.ListingsStall`): the data pump stalls for good exactly if a write failed or
  a terminator was popped in front of other entries, because the terminator branch does not look at the
  buffer again; a client that asks for two listings at once is enough.
* Saving (`SessionRuns.SavingClosesOwnIff`, `SessionExamples.SavingClosesAnother`): the socket that is closed when an
  upload is saved is the upload's own exactly if no other transfer was accepted in between; with two
  uploads at once the first one closes the second one's.
* The key "/" (`ServerProperties.StoredThenGet`, `ServerProperties.RootCanBeStored`): "STOR " with an empty name in the
  initial directory writes it, and a GET of it answers with the listing.

The repository's README writes `STOR /{key}`, `RETR /{key}` and `DELE /{key}`. In the code STOR and RETR
put the working directory, which starts as "/", in front of their argument, while DELE takes its argument as the
whole key; the model follows the code, and `FtpCommands.DeleRemovesIff` says what that means.

## Model

| member | source | states |
|---|---|---|
| Utils.Split | utils/src/utils.cpp:7-26 | the loop with `start` and `end` terminates for every non-empty delimiter and yields `Tokens(text, delimiter)` |
| Utils.TokensPartitionText | utils/src/utils.cpp:7-26 | no token contains the delimiter, and joining the tokens restores the text |
| Utils.TokensOfJoin | utils/src/utils.cpp:7-26 | for a delimiter without proper border, splitting a join of tokens free of it gives those tokens |
| Utils.TokensOfJoinIff | utils/src/utils.cpp:7-26 | for a delimiter without proper border, splitting a join gives the tokens back exactly if no token holds the delimiter and they are not the single empty token |
| Utils.LoneEmptyToken | utils/src/utils.cpp:7-26 | the single empty token joins to the empty text, which has no tokens |
| Utils.SplitUndoesJoinIff | utils/src/utils.cpp:7-26 | the delimiters for which splitting undoes every such join are exactly those without proper border |
| Utils.ToLowerCase | utils/src/utils.cpp:28-30 | the characters are folded in place, each one to lower case |
| Utils.ToUpperCase | utils/src/utils.cpp:32-34 | the characters are folded in place, each one to upper case |
| Utils.FoldingsAre | utils/src/utils.cpp:28-34 | folding replaces each letter of one alphabet by that in the same place of the other, and no other character |
| Utils.CaseFoldingsAgree | utils/src/utils.cpp:28-34 | two texts are the same in lower case exactly if they are the same in upper case |
| Base64.PackedFits | utils/src/utils.cpp:67-81 | the packed word never exceeds 32 bits, not even with the table's 64 for characters outside the alphabet |
| Base64.OutputBounds | utils/src/utils.cpp:54-64 | n input characters make n/4 quanta, and the output has three bytes a quantum, less at most two |
| Base64.FillOutput | utils/src/utils.cpp:66-86 | the loop over quanta fills every index of the output once with its byte of the packed word and never writes past the end |
| Base64.DecodeBase64 | utils/src/utils.cpp:36-89 | the decoder yields `Decoded(input)`, and nothing for a length that is no multiple of four |
| Base64.TableIsAlphabet | utils/src/utils.cpp:37-52 | the decoding table gives each letter of the alphabet of RFC 4648 its place, and 64 to every other character |
| Base64.EncodingLength | utils/src/utils.cpp:59-64 | on an encoding the computed output length is the number of bytes encoded |
| Base64.DecodeOfEncode | utils/src/utils.cpp:36-89 | decoding the section 4 RFC 4648 encoding of any non-empty byte string gives it back |
| Base64.EncodeOfCanonical | utils/src/utils.cpp:36-89 | encoding what a canonical text (section 3.5 of RFC 4648) decodes to gives the text back |
| Base64.EncodeOfDecodeIff | utils/src/utils.cpp:36-89 | encoding undoes decoding exactly on the canonical texts |
| Base64.LooseTextDecodes | utils/src/utils.cpp:36-89 | "QR==" decodes to "A", whose encoding is "QQ==": a text that is not canonical |
| Decimal.ValueOfToString | protocol/http/response/src/http_response.cpp:26-35 | the decimal a number is written as denotes that number |
| Decimal.AtoiOfToString | protocol/http/request/src/http_parser.cpp:26-29 | reading a decimal below 2^31 with `atoi` gives the number, whatever other than a digit follows it |
| HttpParser.Parser.constructor | protocol/http/request/src/http_parser.cpp:18-35 | the fields after construction are `Parse(buffer)`: validity, method, URI, header fields and resource size |
| HttpParser.Parser.ParseRequestLine | protocol/http/request/src/http_parser.cpp:46-50 | method and URI are the first two words of the first line; an unknown method changes nothing |
| HttpParser.Parser.ParseHeaderFields | protocol/http/request/src/http_parser.cpp:52-64 | the loop fills the map with lower-case names and values cut at a second ':', later lines overwriting earlier ones |
| HttpParser.Parser.GetAuthInfo | protocol/http/request/src/http_parser.cpp:66-82 | the credentials are `AuthInfoOf(headerFields)`, nothing without the field or with undecodable text |
| HttpRequests.ReadHeaderLine | protocol/http/request/src/http_parser.cpp:52-64 | a printed header line, with any number of spaces after ':', is read back as its name in lower case and its value up to the first ':', which is the value exactly if it holds none |
| HttpRequests.ReadRequestLine | protocol/http/request/src/http_parser.cpp:46-50 | a printed request line splits into exactly method, URI and version |
| HttpRequests.FieldsHoldLastValues | protocol/http/request/src/http_parser.cpp:52-64 | the map has exactly the printed names, in lower case, and for each the last value given for it, up to the first ':' |
| HttpRequests.LastValueIgnoresCase | protocol/http/request/src/http_parser.cpp:59-62 | which header is found does not depend on the case in which its name is asked for |
| HttpRequests.ParsePrinted | protocol/http/request/src/http_parser.cpp:18-64 | parsing a printed request with any number of headers recovers method, URI, Content-Length below 2^31, and every header's last value up to its first ':' |
| HttpRequests.ValueSurvivesIff | protocol/http/request/src/http_parser.cpp:18-64 | through printing and parsing a whole request a header's last value is recovered exactly if it holds no ':' |
| HttpRequests.HostIsCut | protocol/http/request/src/http_parser.cpp:52-64 | the field "Host: localhost:8080" is read as "localhost" |
| HttpRequests.HeadIsRequestIff | server/object_storage/src/http_method_handlers.cpp:15-24 | of a stream that starts with a printed request, whatever its header lines hold, reading a line and then up to an empty line yields that request exactly if it has a header line |
| HttpRequests.BasicAuthIff | protocol/http/request/src/http_parser.cpp:66-82 | for every user and password, possibly empty, and any other headers, printing, parsing and decoding Basic credentials (section 2 of RFC 7617) returns exactly that pair if and only if neither holds ':' |
| HttpResponse.ToText | protocol/http/response/src/http_response.cpp:49-75 | the loop over headers appends up to `Serialized(r)` |
| HttpResponse.StatusText | protocol/http/response/src/http_response.cpp:9-17 | the text of a response built from a status alone: status line, Content-Length 0, empty line |
| HttpResponse.ResourceText | protocol/http/response/src/http_response.cpp:26-35 | the text of a response that carries a resource: 200, its type, its length, an empty line, the resource |
| HttpResponse.ChallengeText | server/object_storage/src/http_method_handlers.cpp:34-38 | the text of the challenge to authenticate |
| HttpResponse.ReadBack | protocol/http/response/src/http_response.cpp:49-75 | a decoder that finds the end of the head and takes Content-Length bytes (section 6.3 of RFC 9112) recovers the response, whatever follows it |
| HttpResponse.IncompleteIsNotRead | protocol/http/response/src/http_response.cpp:49-75 | as long as a response is not there completely the decoder reads none |
| HttpResponse.StreamReadBack | protocol/http/response/src/http_response.cpp:49-75 | every list of such responses is recovered from its concatenation, whatever the bodies hold |
| HttpResponse.PartialStreamReadBack | protocol/http/response/src/http_response.cpp:49-75 | what is read of a stream still arriving is always a prefix of the responses sent |
| HttpResponse.StatusSelfDelimiting | protocol/http/response/src/http_response.cpp:9-17 | a response built from a status alone announces its empty body and can be read back |
| HttpResponse.ResourceSelfDelimiting | protocol/http/response/src/http_response.cpp:26-35 | a response built around any resource announces exactly its length |
| HttpResponse.ChallengeSelfDelimiting | server/object_storage/src/http_method_handlers.cpp:34-38 | so does the hand-made 401 |
| HttpHandlers.ResponsesSelfDelimiting | server/object_storage/src/http_method_handlers.cpp:15-93 | whatever the handlers answer at once can be cut out of the response stream |
| HttpHandlers.RefusedIff | server/object_storage/src/http_method_handlers.cpp:28-59 | a request is refused exactly if it is invalid, by 400, or if its credentials are asked for and not known, by the challenge |
| HttpHandlers.GetIs | server/object_storage/src/http_method_handlers.cpp:61-93 | a GET that is let in gets the listing for "/", the file if it is there, else 404 |
| HttpHandlers.DeleteIs | server/object_storage/src/http_method_handlers.cpp:136-154 | a DELETE that is let in removes its file and gets 200 exactly if the file is there, else 404 |
| HttpHandlers.PutIs | server/object_storage/src/http_method_handlers.cpp:95-107 | a PUT that is let in has a body of the declared size read, after a 100 exactly if it expects one |
| HttpHandlers.BodyAnswerIs | server/object_storage/src/http_method_handlers.cpp:108-131 | 201 exactly if the body came and the path was free, 404 if it was taken, 500 if the body did not come |
| HttpAdmission.CredentialsDecide | server/object_storage/src/http_method_handlers.cpp:44-59 | a printed request with Basic credentials without ':' in either part is let in exactly if the name is "anonymous" or in the user table with that password, else refused by 401 |
| HttpAdmission.LetInWithoutAuthentication | server/object_storage/src/http_method_handlers.cpp:44-59 | where nobody is asked for credentials every printed request is let in |
| HttpAdmission.ExpectsIff | server/object_storage/src/http_method_handlers.cpp:96-98 | a printed request is invited to send its body exactly if its last Expect header, in any case, says 100-continue |
| HttpHandlers.BodyResponseSelfDelimiting | server/object_storage/src/http_method_handlers.cpp:95-134 | so can the answers after a body was read, and the 100 |
| FtpParser.Parser.constructor | protocol/ftp/request/src/ftp_parser.cpp:11-25 | the fields after construction are `Parse(buffer)`; an unknown command keeps its tokens and stays invalid |
| FtpParser.ParsePrinted | protocol/ftp/request/src/ftp_parser.cpp:11-25 | words separated by single spaces come back as tokens, and the command is recognised exactly if the first word is its name in any mixture of cases |
| MemoryFs.MemoryFs.Get | filesystem/memory_fs/src/memory_fs.cpp:5-14 | the stored file and success, or not found |
| MemoryFs.MemoryFs.Add | filesystem/memory_fs/src/memory_fs.cpp:16-25 | a new path is added, an existing one keeps its file and is reported |
| MemoryFs.MemoryFs.List | filesystem/memory_fs/src/memory_fs.cpp:27-36 | every present path once, in some order, and the store unchanged |
| MemoryFs.ListingIsExact | filesystem/memory_fs/src/memory_fs.cpp:27-36 | a listing holds exactly the present paths, none twice |
| MemoryFs.MemoryFs.Remove | filesystem/memory_fs/src/memory_fs.cpp:38-41 | the path is gone, and success is reported exactly if it was there |
| UserDatabase.UserDatabase.Add | user/database/src/user_database.cpp:5-11 | a new name is inserted, an existing one keeps its password, the anonymous user is not inserted |
| UserDatabase.UserDatabase.Verify | user/database/src/user_database.cpp:13-25 | true exactly for the anonymous user, and for a name in the table with that very password |
| UserDatabase.VerifiedIff | user/database/src/user_database.cpp:13-25 | exactly the anonymous user and the pairs in the table verify |
| UserDatabase.InsertedIs | user/database/src/user_database.cpp:5-11 | an insertion adds the pair of a new name other than "anonymous" and leaves every other entry alone |
| UserDatabase.InsertionIsMonotone | user/database/src/user_database.cpp:5-25 | after an insertion exactly those verify who did before, and the inserted user if the name was new |
| Listing.Build | server/object_storage/src/ftp_command_handlers.cpp:82-87 | the loop yields every path followed by a newline |
| Listing.ReadBackIff | server/object_storage/src/ftp_command_handlers.cpp:82-87 | splitting the text at newlines gives the paths back, and an empty token, exactly if there are paths and none of them holds a newline |
| ControlPump.NextKeeps | server/object_storage/src/session.cpp:158-194 | every step keeps: posted messages are sent ones, then queued ones, then those still posted; while no write has failed the queue is non-empty exactly if one write is in flight; the wire holds the sent messages and part of the front |
| ControlPump.QueueWhileWriting | server/object_storage/src/session.cpp:158-182 | front and pop_front never meet an empty queue |
| ControlPump.WireIsPrefix | server/object_storage/src/session.cpp:158-194 | in every state the bytes on the control socket are a prefix of the messages in post order |
| ControlPump.FailureIsFinal | server/object_storage/src/session.cpp:176-180 | after a failed write nothing more reaches the wire and no write starts, whatever happens |
| ControlPump.MeasureDecreases | server/object_storage/src/session.cpp:158-194 | every error-free step that posts nothing lowers a bounded measure |
| ControlPump.DrainsCompletely | server/object_storage/src/session.cpp:158-194 | without failure or new messages every run is bounded, and one that cannot go on has put every message on the wire, whole and in order |
| DataPump.NextKeeps | server/object_storage/src/session.cpp:205-255 | every step, failed writes and overlapping downloads included, keeps the pump's invariant: conservation of entries, one activity, delivery, and when it is cut short |
| DataPump.OneActivityAtFront | server/object_storage/src/session.cpp:205-255 | at most one send step or write exists; while one does the buffer is not empty and it concerns the front entry, on that entry's own socket |
| DataPump.DownloadsConserved | server/object_storage/src/session.cpp:205-255 | accepted downloads are, in accept order, those answered by 226, those whose terminator is buffered, and those whose terminator is still posted; none is answered twice |
| DataPump.DeliveredIsOwnFile | server/object_storage/src/session.cpp:205-241 | a data socket only ever receives a prefix of its own file, and a 226 means all of it was written and the socket closed |
| DataPump.StallsIff | server/object_storage/src/session.cpp:217-238 | the pump stalls with entries left exactly if some step was a failed write or popped a terminator in front of other entries |
| DataPump.OverlapStalls | server/object_storage/src/session.cpp:229-238 | two downloads accepted at once, without any failed write, leave the pump stalled with the second one unsent |
| DataPump.StallIsFinal | server/object_storage/src/session.cpp:205-255 | a stalled pump delivers nothing more, not even downloads accepted later |
| DataPump.MeasureDecreases | server/object_storage/src/session.cpp:205-255 | every error-free step that accepts nothing lowers a bounded measure |
| DataPump.SoloDownloadsDelivered | server/object_storage/src/session.cpp:205-255 | downloads that do not overlap and meet no error: every further run is bounded, and one that cannot go on has delivered each file whole, closed each socket, completed each download once in order, and left nothing pending |
| DataPump.RestsDeliveredIff | server/object_storage/src/session.cpp:205-255 | a run that has come to rest, with no socket closed under a write, has delivered every file, closed every socket and completed every download exactly if none of its steps was a failed write or popped a terminator in front of other entries |
| Upload.NextKeeps | server/object_storage/src/session.cpp:278-301 | the assembled file is always the part of the stream that completed reads have taken, in order |
| Upload.SavedFileIsStream | server/object_storage/src/session.cpp:278-321 | in whatever portions bytes arrive, and however their number relates to the 1 MiB chunk, the file handed to the store is exactly those bytes, after length / 1 MiB + 1 reads |
| Upload.EndedUploadIsSaved | server/object_storage/src/session.cpp:278-301 | once the connection has ended, exactly one read for each whole chunk left and one for the end complete, after which the file is the whole stream and its saving is posted |
| Upload.EndedReadsBounded | server/object_storage/src/session.cpp:278-301 | no run of completed reads after the end is longer |
| FtpCommands.EffectsNeedLogin | server/object_storage/src/ftp_command_handlers.cpp:71-217 | transfers and deletions start only for LIST, RETR, STOR and DELE of someone logged in, a transfer always with 150, a STOR on working directory plus argument, a DELE on its argument alone |
| FtpCommands.UserIff | server/object_storage/src/ftp_command_handlers.cpp:33-45 | USER logs out, and is taken with 331 and its name remembered exactly with one argument |
| FtpCommands.PassIff | server/object_storage/src/ftp_command_handlers.cpp:47-69 | PASS gets 230, and logs that pair in, exactly behind USER, with one argument, and for a pair that is known; the error codes say which of these failed |
| FtpCommands.NotLoggedInIff | server/object_storage/src/ftp_command_handlers.cpp:71-76 | every other command but QUIT gets 530, and changes nothing, exactly while nobody is logged in |
| FtpCommands.ListIff | server/object_storage/src/ftp_command_handlers.cpp:71-109 | LIST sends a listing whenever someone is logged in |
| FtpCommands.RetrIff | server/object_storage/src/ftp_command_handlers.cpp:111-164 | RETR sends the file under working directory and argument exactly if an acceptor is open and the file there |
| FtpCommands.StorIff | server/object_storage/src/ftp_command_handlers.cpp:166-194 | STOR starts an upload to working directory and argument exactly with one argument and an open acceptor |
| FtpCommands.DeleIff | server/object_storage/src/ftp_command_handlers.cpp:196-217 | DELE gets 250 and deletes its argument exactly if there is such a file |
| FtpCommands.CwdIff | server/object_storage/src/ftp_command_handlers.cpp:267-279 | CWD gets 250 and appends its argument and "/" exactly with one argument |
| FtpCommands.TypeAndQuit | server/object_storage/src/ftp_command_handlers.cpp:246-265 | TYPE is taken as it comes; QUIT forgets everything but that it was the last command |
| FtpCommands.PasvIff | server/object_storage/src/ftp_command_handlers.cpp:219-244 | PASV gets 227 exactly if an acceptor could be set up, which is then open, and its text holds exactly that endpoint as a client reads it |
| FtpCommands.HandleChanges | server/object_storage/src/ftp_command_handlers.cpp:16-69 | how each command changes login, last name, last command and directory is decided by the command, its arguments, the login, and for PASS its reply code; the command just handled is the last one, even after QUIT |
| FtpCommands.HandleAgrees | server/object_storage/src/ftp_command_handlers.cpp:16-69 | command state stays a function of the history of commands, and a successful PASS always follows a USER directly |
| FtpCommands.UserLogsOut | server/object_storage/src/ftp_command_handlers.cpp:33-45 | behind USER nobody is logged in |
| FtpCommands.LoggedInIff | server/object_storage/src/ftp_command_handlers.cpp:33-69 | someone is logged in exactly if a successful PASS has neither USER nor QUIT behind it |
| FtpCommands.KeyTokensIff | server/object_storage/src/ftp_command_handlers.cpp:267-279 | splitting a key at "/" gives an empty token, the directories of the accepted CWDs, and the name exactly if none of them holds a "/" |
| FtpCommands.KeysAreInjective | server/object_storage/src/ftp_command_handlers.cpp:125-129 | for components without "/" different directories or names make different keys |
| FtpCommands.DeleRemovesIff | server/object_storage/src/ftp_command_handlers.cpp:196-217 | DELE removes a file stored under directories and name exactly if its argument is the whole key, so never if it is the argument of the STOR |
| FtpCommands.FormatPassive | server/object_storage/src/ftp_command_handlers.cpp:235-242 | the loop over the address bytes and the shifts of the port yield `PassiveText` |
| FtpCommands.PassiveReadBack | server/object_storage/src/ftp_command_handlers.cpp:231-242 | reading the six decimals of the PASV reply (section 4.1.2 of RFC 959) gives back every four-byte address and every 16-bit port |
| SessionInvariants.StepHistory | server/object_storage/src/session.cpp:184-194 | each step posts at most the one message its handler sends, behind all earlier ones |
| SessionLines.DetectedIff | protocol/detector/src/protocol_detector.cpp:7-13 | a packet is an HTTP request exactly if its first line mentions HTTP |
| SessionLines.HttpNameIsTaken | protocol/detector/src/protocol_detector.cpp:7-13 | the command line "STOR HTTP.txt" is taken for an HTTP request |
| SessionLines.PrintedRequestTaken | server/object_storage/src/session.cpp:137-153 | the step that reads a printed HTTP/1.1 request takes exactly that request, and touches neither commands nor transfers |
| SessionLines.HttpLineCarried | server/object_storage/src/http_method_handlers.cpp:15-154 | what the step does for a request, by the users and files alone: which response it posts, what it reads next, and what it changes in the store |
| SessionLines.FtpLineTaken | server/object_storage/src/ftp_command_handlers.cpp:16-31 | a line that does not mention HTTP becomes no request and gets exactly one reply, with the code of its command's outcome, logged with it; an unknown one gets 500 and changes nothing else |
| SessionLines.PasvLineTaken | server/object_storage/src/ftp_command_handlers.cpp:219-244 | the message posted for PASV of someone logged in begins with 227 and holds exactly the endpoint, for every 16-bit port |
| SessionLines.FailedReadIs | server/object_storage/src/session.cpp:123-135 | a failed read closes the acceptor, posts one close, reads on, and changes nothing else |
| SessionLines.GreetingIs | server/object_storage/src/session.cpp:77-93 | an FTP client is greeted by 220, any other by nothing |
| SessionLines.InvitedIff | server/object_storage/src/http_method_handlers.cpp:95-98 | in every run a 100 is posted for exactly those PUTs that expect one and are not refused |
| SessionInvariants.StepIsPumpStep | server/object_storage/src/session.cpp:196-255 | each step of a session is at most one step of its data pump, so what holds in all runs of the pump holds in all runs of the session |
| SessionInvariants.StepKeepsStages | server/object_storage/src/ftp_command_handlers.cpp:71-194 | a transfer waits for its connection, is uploaded or is downloaded, never two of these, and its number is never reused |
| SessionInvariants.StepKeepsReading | server/object_storage/src/session.cpp:115-156 | exactly one read of the control socket is outstanding or about to be armed, none after a refusal; a body read belongs to the latest request, a PUT |
| SessionHistories.StepKeepsAnswers | server/object_storage/src/http_method_handlers.cpp:15-154 | the n-th final response posted answers the n-th request, an interim one belongs to the request answered next, and no request gets two |
| SessionHistories.StepKeepsCommands | server/object_storage/src/ftp_command_handlers.cpp:16-31 | only command lines change the command state, and it stays a function of the history |
| SessionHistories.StepKeepsOrigins | server/object_storage/src/ftp_command_handlers.cpp:71-194 | each transfer goes back to a LIST, RETR or STOR of its own issued while logged in, whatever USER or QUIT comes before it ends |
| SessionHistories.StepSpelled | server/object_storage/src/session.cpp:184-321 | every message a step posts begins with 150 exactly if it announces a transfer, and with 226, 450 or 426 exactly if it ends one |
| SessionHistories.StepKeepsReplies | server/object_storage/src/session.cpp:205-321 | each transfer is announced by one message and ended by one later one, unless it is still under way, and the texts of these and no other messages begin with 150, and with 226, 450 or 426 |
| SessionHistories.StepKeepsReported | server/object_storage/src/session.cpp:229-238 | the 226 messages "Done" in the history are exactly those of the downloads the pump has completed, in that order |
| SessionHistories.StepKeepsInv | server/object_storage/src/session.cpp:115-321 | every step of a session, whatever it meets, keeps all of this together |
| SessionRuns.OneRead | server/object_storage/src/session.cpp:115-156 | at most one read of the control socket is outstanding in every run |
| SessionRuns.RefusalIsFinal | server/object_storage/src/http_method_handlers.cpp:28-38 | after a 400 or 401 no read is armed again, so no further request, command or transfer begins |
| SessionRuns.SavingClosesOwnIff | server/object_storage/src/session.cpp:303-321 | the step that saves an upload closes one data socket, and this is the upload's own exactly if no other transfer was accepted since it was |
| SessionExamples.SavingClosesAnother | server/object_storage/src/session.cpp:196-203 | a run from the start, through the lines USER, PASS, PASV, STOR and STOR, in which saving the first upload closes the socket of the second and not its own |
| SessionExamples.ListingsStall | server/object_storage/src/session.cpp:229-238 | a run from the start, through USER, PASS, PASV, LIST and LIST, without failed write, that ends with the data pump stalled and the second listing unsent |
| SessionExamples.PutGetDelete | server/object_storage/src/http_method_handlers.cpp:15-154 | a run from the start through printed PUT, GET and DELETE packets, answered by 201, 200 with the body, and 200, that adds and removes the file |
| SessionRuns.FinalsAnswerInOrder | server/object_storage/src/http_method_handlers.cpp:15-154 | the n-th final response of a history carries request number n |
| SessionRuns.ResponsesInRequestOrder | server/object_storage/src/http_method_handlers.cpp:15-154 | in every run of an HTTP connection, at any moment, a client decoding what has reached it holds whole answers to the first requests, in request order and without gap |
| SessionRuns.DrainedAnswersAll | server/object_storage/src/http_method_handlers.cpp:15-154 | once the output is drained it has the answer to every request, except one whose body is still being read |
| SessionTransfers.DataTraceIsRun | server/object_storage/src/session.cpp:205-255 | every run of a session contains a run of its data pump |
| SessionTransfers.PumpMoveDecreases | server/object_storage/src/session.cpp:158-255 | one measure over both pumps falls with every error-free step, although a popped terminator posts a new message |
| SessionTransfers.PumpsDrain | server/object_storage/src/session.cpp:158-255 | from every error-free, non-overlapping state both pumps come to rest after boundedly many steps in any interleaving, with every message on the wire, every file delivered whole, every socket closed, and every download answered on the wire by one 226, in order and behind its 150 |
| SessionProgress.OwnMoveLowers | server/object_storage/src/session.cpp:158-321 | one measure over pumps, uploads and posted closes falls with every step a session takes by itself |
| SessionProgress.UploadsAreFinished | server/object_storage/src/session.cpp:158-321 | from every reachable state without failed control write, even after overlapping or failed downloads, a session comes to rest after boundedly many steps, and then every message is on the wire and every upload whose connection had ended is saved whole and answered by exactly one reply |
| SessionTransfers.AnnouncedBeforeEnded | server/object_storage/src/session.cpp:158-321 | of the messages written whole, each whose text begins like a 226, 450 or 426 ends a transfer whose one 150 was written before it, and nothing else written announces or ends that transfer |
| SessionTransfers.EndingsNeverExceed | server/object_storage/src/session.cpp:158-321 | at no moment have more texts beginning like a 226, 450 or 426 been written than ones beginning like a 150 |
| SessionTransfers.CompletedAreReported | server/object_storage/src/session.cpp:205-255 | in every state each completed download has one message 226 in the history, behind its one 150, in the order of completion, and no other message ends that transfer |
| SessionStore.StepExtends | server/object_storage/src/session.cpp:303-321 | histories only grow and saved uploads never change |
| SessionStore.StepFounded | server/object_storage/src/session.cpp:303-321 | each change of the store goes back to an upload, body, command or request of the session that may make it, fits the store, and is made once only |
| SessionStore.OutcomeIsTold | server/object_storage/src/session.cpp:303-321 | an upload is answered by 226, and a PUT by 201, exactly if the file was added, else by 450 and 404 or 500 |
| SessionStore.SavingIs | server/object_storage/src/session.cpp:303-321 | saving adds the whole stream and answers 226 exactly if the path is free, else it adds nothing and answers 450 |
| SessionStore.StepKeepsTrusted | server/object_storage/src/ftp_command_handlers.cpp:47-69 | who is logged in verifies against the user table, and a PUT whose body is read was authorised |
| StoreHistory.Alternation | filesystem/memory_fs/src/memory_fs.cpp:5-45 | on each path successful adds and removes strictly alternate, starting with an add, and the store holds what the latest add added |
| StoreHistory.FileIff | filesystem/memory_fs/src/memory_fs.cpp:5-45 | a file is there exactly if some add of it has no remove of its path behind it |
| Server.NextKeeps | server/object_storage/src/session.cpp:115-321 | over all interleavings of sessions, new connections and new users every session stays sound, the store is what its history makes it, and every change is backed by the session that made it |
| ServerProperties.TraceIsRun | server/object_storage/src/session.cpp:115-321 | seen from one session, every run of the server is a run of that session alone |
| ServerProperties.ResponsesAmongSessions | server/object_storage/src/http_method_handlers.cpp:15-154 | an HTTP client gets its answers in request order whatever other sessions do meanwhile |
| ServerProperties.TransfersAreIssued | server/object_storage/src/ftp_command_handlers.cpp:71-194 | in every reachable state every awaited or accepted data connection goes back to its own LIST, RETR or STOR issued while logged in, a STOR to exactly that path |
| ServerProperties.PathsAlternate | filesystem/memory_fs/src/memory_fs.cpp:5-45 | in every run of the server adds and removes of each path alternate, starting with an add |
| ServerProperties.FilesAreWhole | server/object_storage/src/session.cpp:303-321 | every visible file is the whole stream of one completed upload or exactly the body received for one admitted PUT, as long as announced, and its path was named by that command or request |
| ServerProperties.RemovalsAreAsked | server/object_storage/src/ftp_command_handlers.cpp:196-217 | every removal goes back to a DELE of someone logged in or to an admitted DELETE |
| ServerProperties.ChangesOnce | server/object_storage/src/session.cpp:303-321 | no upload, body, command or request changes the store twice |
| ServerProperties.StoredWhole | filesystem/memory_fs/src/memory_fs.cpp:5-25 | until its path is removed, what a STOR or PUT received is in the store, whole |
| ServerProperties.StoredUnderKey | server/object_storage/src/ftp_command_handlers.cpp:190-193 | the key of a STOR is made of the directories and the name of its command, that of a PUT is its URI |
| ServerProperties.StoredThenGet | server/object_storage/src/http_method_handlers.cpp:61-93 | a GET of that key answers with the bytes received by the STOR or PUT, except for the key "/" |
| ServerProperties.StoredThenRetr | server/object_storage/src/ftp_command_handlers.cpp:111-164 | a RETR of that key from any logged-in session sends them |
| ServerProperties.RootCanBeStored | server/object_storage/src/ftp_command_handlers.cpp:166-194 | "STOR " parses to an empty name, which in the initial directory starts an upload to the key "/" |
| ServerProperties.LoginsHold | server/object_storage/src/ftp_command_handlers.cpp:33-69 | in every run, with users added at any time: logged in exactly if the latest of USER, QUIT and successful PASS is a PASS, never directly behind USER, still verifying now; the working directory is "/" and the accepted CWD arguments since the last QUIT |
| ServerAnswers.StepKeepsStory | server/object_storage/src/http_method_handlers.cpp:15-154 | each step of a session keeps this, for its responses, the body it is waiting for, and its downloads |
| ServerAnswers.ResponsesAnswerTheirRequests | server/object_storage/src/http_method_handlers.cpp:15-154 | in every run of the server the n-th final response of a session is what the handlers make of its n-th request: with the users, files and a listing of the state before the turn that took it, or, for a PUT, with the files before the turn that posted the response and with whether the session received the body |
| ServerAnswers.GetTellsTheStore | filesystem/memory_fs/src/memory_fs.cpp:5-14 | in every run the answer to a GET that is not refused carries the bytes of the add of that path that stood when the request was taken, is 404 exactly if none stood, and for "/" carries a listing of the store of then |
| ServerAnswers.GetServesReceived | server/object_storage/src/http_method_handlers.cpp:61-93 | in every run a 200 to a GET of a file carries exactly the bytes that one STOR received on its connection, or one PUT as its body, and was to store under that path |
| ServerAnswers.DownloadsAreOfTheirMoment | server/object_storage/src/ftp_command_handlers.cpp:71-164 | in every run the bytes of each accepted download are the listing, or the file under working directory and argument, of the state before the turn that took its LIST or RETR |
| ServerAnswers.RetrTellsTheStore | server/object_storage/src/ftp_command_handlers.cpp:111-164 | for a RETR these are the bytes of the add of its key that stood then |
| ServerOutcomes.StepIsTrue | server/object_storage/src/session.cpp:303-321 | each step of a session tells its client of the success of a change exactly if the step makes that change |
| ServerOutcomes.SuccessIsTold | server/object_storage/src/http_method_handlers.cpp:95-154 | in every run a session has told its client by 226, 201, 250 or 200 that an upload, PUT, DELE or DELETE succeeded exactly if that very upload, body, command or request changed the store |
| ServerOutcomes.CreatedIff | server/object_storage/src/http_method_handlers.cpp:95-134 | in every run the n-th final response of a session is a 201 exactly if the body of its n-th request was stored |
| ServerOutcomes.CreatedIsServed | server/object_storage/src/http_method_handlers.cpp:61-134 | a client that has read a 201 as its n-th final response off the wire can conclude that the body of its n-th request was stored whole under its URI, and that a GET of it, unless it is "/", answers with that body until it is removed |
| ServerCommands.CommandsAreAnswered | server/object_storage/src/ftp_command_handlers.cpp:16-279 | in every run each command was answered by the code it deserved by the session's state, the users and the files before the turn that took it |
| ServerCommands.PassIsAnswered | server/object_storage/src/ftp_command_handlers.cpp:47-69 | in every run PASS directly behind a well-formed USER gets 230 if the name is "anonymous" or was in the user table then with that password, else 530 |
| ServerCommands.CwdIsAnswered | server/object_storage/src/ftp_command_handlers.cpp:267-279 | in every run CWD gets 250 exactly with one argument and while someone was logged in |
| ServerCommands.ListAndStorAreAnswered | server/object_storage/src/ftp_command_handlers.cpp:71-194 | in every run LIST gets 150 exactly while someone was logged in, and STOR only then, with one argument and an open acceptor |
| ServerCommands.UsersAreAdded | user/database/src/user_database.cpp:5-11 | in every run each pair in the user table was added by the first turn that added its name |
| ServerCommands.LoginWasAdded | server/object_storage/src/ftp_command_handlers.cpp:47-69 | in every run whoever is logged in under a name other than "anonymous" was added with that very password by the first turn that added the name |
| ServerCommands.RefusalsTell | server/object_storage/src/http_method_handlers.cpp:28-59 | in every run the n-th response is 400 exactly if the n-th request is invalid, and 401 exactly if it is valid but was not let in with the users of that moment |
| ServerCommands.DeletesTellTheStore | server/object_storage/src/http_method_handlers.cpp:136-154 | in every run a DELETE that is not refused gets 200 exactly if its path was in the store when it was taken, else 404, and removed it exactly in the first case |
| Session.Session.SendMessage | server/object_storage/src/session.cpp:184-194 | the message is posted behind all others |
| Session.Session.EnqueueMessage | server/object_storage/src/session.cpp:187-193 | the posted task enqueues the message and starts writing only if the queue was empty |
| Session.Session.MessageWritten | server/object_storage/src/session.cpp:163-181 | on success the front is popped and the next write started if there is one; on error the message stays and writing stops |
| Session.Session.EnqueueFtpDataHandler | server/object_storage/src/session.cpp:243-255 | the task for an entry is posted behind all others |
| Session.Session.EnqueueData | server/object_storage/src/session.cpp:246-254 | the task appends the entry and posts a send step only if the buffer was empty |
| Session.Session.SendData | server/object_storage/src/session.cpp:205-241 | the step writes the front file on its socket, or pops the terminator, closes the socket and posts 226 |
| Session.Session.FileWritten | server/object_storage/src/session.cpp:214-228 | the front is popped, and the next send step posted only after success with entries left |
| Session.Session.CloseFtpDataSocket | server/object_storage/src/session.cpp:196-203 | the current data socket, if any, is closed and nothing else changes |
| Session.Session.DownloadAccepted | server/object_storage/src/ftp_command_handlers.cpp:88-108 | the socket becomes the current one, and the file and its terminator are posted in this order |
| Session.Session.UploadAccepted | server/object_storage/src/session.cpp:257-276 | the socket becomes the current one and an empty upload starts reading |
| Session.Session.AcceptFailed | server/object_storage/src/session.cpp:265-270 | the transfer is given up with 426 |
| Session.Session.ReceiveFile | server/object_storage/src/session.cpp:278-301 | a whole chunk arms the next read and is appended, the rest is appended and saving posted |
| Session.Session.SaveFile | server/object_storage/src/session.cpp:303-321 | the file is added if the path is free, answered by 226 or 450 accordingly, and the current data socket closed |
| Session.Session.ReadFailed | server/object_storage/src/session.cpp:123-135 | the acceptor is closed, a close posted, and the read armed again |
| Session.Session.HandleFtpUser | server/object_storage/src/ftp_command_handlers.cpp:33-45 | state, reply and history are those of `HandleUser` |
| Session.Session.HandleFtpPass | server/object_storage/src/ftp_command_handlers.cpp:47-69 | state, reply and history are those of `HandlePass` against the shared user table |
| Session.Session.HandleFtpList | server/object_storage/src/ftp_command_handlers.cpp:71-109 | the transfer that waits for its connection sends the text of a listing of the store |
| Session.Session.HandleFtpRetr | server/object_storage/src/ftp_command_handlers.cpp:111-164 | the transfer that waits sends the bytes stored under working directory plus argument |
| Session.Session.HandleFtpStor | server/object_storage/src/ftp_command_handlers.cpp:166-194 | the transfer that waits uploads to working directory plus argument |
| Session.Session.HandleFtpDele | server/object_storage/src/ftp_command_handlers.cpp:196-217 | the argument is removed from the store if there, with the matching reply |
| Session.Session.HandleFtpPasv | server/object_storage/src/ftp_command_handlers.cpp:219-244 | the acceptor's state and the reply are those of `HandlePasv` |
| Session.Session.HandleFtpQuit | server/object_storage/src/ftp_command_handlers.cpp:258-265 | login, directory, last name and last command are reset and 221 sent |
| Session.Session.HandleFtpCwd | server/object_storage/src/ftp_command_handlers.cpp:267-279 | the argument and "/" are appended to the working directory, or an error is replied |
| Session.Session.HandleFtp | server/object_storage/src/ftp_command_handlers.cpp:16-31 | a recognised command is dispatched and becomes the last one, an unrecognised line gets 500 and changes nothing else, and the next read is armed |
| Session.Session.AuthHttpUser | server/object_storage/src/http_method_handlers.cpp:44-59 | true exactly if authentication is off or the credentials verify |
| Session.Session.HandleHttpGet | server/object_storage/src/http_method_handlers.cpp:61-93 | the listing for "/", the stored file or 404, then the next read |
| Session.Session.HandleHttpPut | server/object_storage/src/http_method_handlers.cpp:95-107 | a 100 if the client expects one, then a read of exactly the announced size |
| Session.Session.HandleHttpDelete | server/object_storage/src/http_method_handlers.cpp:136-154 | the file is removed and 200 sent exactly if it was there, else 404, then the next read |
| Session.Session.HandleHttp | server/object_storage/src/http_method_handlers.cpp:15-42 | the request is answered, refused without another read, or its body read, as `Handle` decides |
| Session.Session.BodyReceived | server/object_storage/src/http_method_handlers.cpp:108-133 | the body is stored under a free path and answered by 201, 404 or 500, then the next read |
| Session.Session.Start | server/object_storage/src/session.cpp:77-93 | the first read is posted, an FTP client is greeted, and the whole invariant holds |
| Session.Session.OnLine | server/object_storage/src/session.cpp:115-156 | a line read takes exactly the machine's step for that packet on the shared store and keeps the whole invariant |
| Session.Session.OnPostedMessage | server/object_storage/src/session.cpp:184-194 | likewise the posted output task |
| Session.Session.OnMessageWritten | server/object_storage/src/session.cpp:158-182 | likewise the completion of a control write, which never meets an empty queue |
| Session.Session.OnDataTask | server/object_storage/src/session.cpp:205-255 | likewise the front task of the data strand, which never meets an empty buffer |
| Session.Session.OnFileWritten | server/object_storage/src/session.cpp:213-228 | likewise the completion of a data write |
| Session.Session.OnAccepted | server/object_storage/src/session.cpp:257-276 | likewise an accepted data connection |
| Session.Session.OnUploadRead | server/object_storage/src/session.cpp:278-301 | likewise the completion of an upload read |
| Session.Session.OnSave | server/object_storage/src/session.cpp:303-321 | likewise the task that saves a file, with the change it makes to the shared store |
| Session.Session.OnBody | server/object_storage/src/http_method_handlers.cpp:106-134 | likewise the completion of a PUT body |

## Left out

- Sockets, acceptor set-up and TCP options: accepts, reads, writes and their errors are steps or parameters; `configureDataAcceptor` comes in as "new endpoint, or none and whether an acceptor stayed open".
- Strand order between different kinds of tasks: the posted tasks of each pump run in the order in which they were posted; tasks of different kinds (pump tasks, saving, closing, the first read) are free to overtake each other, which allows more runs than the program has.
- Accepts do not depend on the acceptor being open: an accept may succeed or fail at any time, again more runs than the program has.
- Threads, locks, object lifetimes, views and references: handlers are atomic on their strand, store and user table operations are atomic, values are copied. A socket whose last owner has gone counts as closed once it is closed through the weak pointer.
- Place of the 220 greeting: it is posted by `start`; its order relative to a very early client command is fixed in the model and not in the program.
- Failing synchronous reads: the rest of an HTTP head is part of the packet, and a failing `read_until` in `handleHttp` does not occur.
- Bytes of a PUT body that were read ahead with the head: a body read is given exactly the announced number of bytes.
- Inputs on which the C++ is undefined: header lines without ':' or with nothing but spaces up to a second ':' or the end, requests of fewer than three lines, a request line without URI, an FTP line of nothing but its CRLF, RETR or DELE without argument, missing or malformed credentials when authentication is on, base64 text that is empty or not ASCII. They are preconditions.
- Content-Length values that do not fit an int, or are white space throughout, where `atoi` runs on behind the value; and the allocation that fails for a body of negative or huge size.
- Case folding of characters outside ASCII.
- The texts of system errors in a 426 reply: arbitrary.
- The order of a listing: arbitrary, as that of the hash table is.
- HTTP statuses the session never sends, the FTP reply enum, logging, `object_storage.cpp`, `example_app.cpp` and the port-range test.
