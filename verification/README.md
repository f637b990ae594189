# A verified model of the IPv6 tunnel, the CC2520 send path and their helpers

This project models five parts of the repository and proves what they promise:

- **The jsmn tokenizer** (`Jsmn*.dfy`). `JsmnTokens` says what one call computes, `JsmnParser` is the
  tokenizer as it works, over the caller's token array, proved to compute that. The theorems: the flat table is
  a forest listed in preorder (`JsmnForest`); the two ways to find the enclosing container agree exactly
  while no bracket is closed with nothing open (`JsmnParentLinks`); a resumed parse equals a fresh one exactly
  when no primitive was cut (`JsmnResume`); and the accepted texts are exactly the prints of the trees of
  `JsmnGrammar`, the table being the tree's listing (`JsmnPrintParse`, `JsmnLanguage`), in the build with parent
  links with closing brackets for any of the blanks between and behind them (`JsmnLinksLanguage`). `JsmnCodes` tells
  what the error codes mean for longer texts and larger tables. The grammar has its own character classes. A flag
  `links` selects the build with or without parent links.
- **The CC2520 send path**. `LinkLayer` is the retransmission layer with its task queue, timer and lower layer as
  a state machine, `LinkComponent` the component as it works, `LinkRetries` the count of attempts, `LinkReports`
  what the client is told; `SendDriver` the pipes, the child process and the completion slot; `RadioStack` all of them together with
  clients that send, cancel and write between any two steps, from inside a completion as well; `RadioAnswers` follows
  a message from the driver's answers to its report.
- **The tunnel server and client**. `AssignmentFile` is the file of prefixes and its text, `AssignmentLayout` the
  same texts written with blanks, `PrefixManager` the
  allocator, `TunIds` the TUN numbers, `ClientLocks` the table of client locks, `TunnelSession` the three goroutines
  of one session, `TunnelServer` any number of connections over the shared locks and allocators, one transition
  for each step of each goroutine. `TunnelRelease` shows when a client's lock comes free again, `ServerRuns` runs
  of a server just started in which two sessions get one name, or one gets stuck.
  `ClientHandshake` is the client's token lookup over the verified tokenizer, `Reconnects` the client and the
  allocator together.
- **The inih parser**. `IniLines` says what a line does, `IniParser` is the parser as it works, writing NULs into its
  line buffer. `IniLayout` prints items as lines, with a notion of white space and comments of its own, `IniFiles`
  lists of them as files; parsing gives exactly what they mean, and every line is an item's.
- **Nested atomic sections over signal masks** (`AtomicSections`): every step of the primitives, with handlers
  delivered wherever the mask allows and with the sleep that opens the mask inside a section.

Methods are proved equal to a specification function of the old state, and the promises are lemmas about that
function over all inputs or all runs. Where a promise does not hold everywhere, the lemma says exactly when it
does, and another lemma shows a failure at a concrete input or run: `JsmnParentLinks.UnmatchedBracketDiffers`,
`LinkLayer.DoubleCancelBreaks`, `RadioStack.WrittenFrameDiffers`, `RadioStack.ResubmittedFrameDiffers`,
`PrefixManager.FirstAssignmentLost`, `TunnelSession.GetsStuck`, `ServerRuns.NamesCanCollide`,
`ServerRuns.SessionCanGetStuck`.

Where the code and its comments disagree the code is followed: the tokenizer's comment on `\u` escapes promises
four digits, none are looked at; the server's comment says that the quit message blocks until it is taken, but
the channel holds ten.

## Model

| member | source | states |
|---|---|---|
| JsmnParser.Parser.constructor | software/ipv6_tunnel/lib/jsmn/jsmn.c:250-254 | a new parser stands at the start with an empty table and no open container |
| JsmnParser.Parser.Init | software/ipv6_tunnel/lib/jsmn/jsmn.c:250-254 | a parser can be made ready for a new text |
| JsmnParser.Parser.AllocToken | software/ipv6_tunnel/lib/jsmn/jsmn.c:8-21 | a fresh entry with unset borders, or none and nothing changed when the table is full |
| JsmnParser.Parser.ParsePrimitive | software/ipv6_tunnel/lib/jsmn/jsmn.c:37-77 | one token up to the delimiter, or on each error the position and the table as before |
| JsmnParser.Parser.ParseString | software/ipv6_tunnel/lib/jsmn/jsmn.c:82-129 | one token between the quotes, or on each error the position and the table as before |
| JsmnParser.Parser.CloseContainer | software/ipv6_tunnel/lib/jsmn/jsmn.c:160-203 | both searches for the open container, in place, close the one the specification names |
| JsmnParser.Parser.OpenContainer | software/ipv6_tunnel/lib/jsmn/jsmn.c:146-159 | a new open token on top of the stack, counted as a child of the one below |
| JsmnParser.Parser.Parse | software/ipv6_tunnel/lib/jsmn/jsmn.c:134-244 | the in-place tokenizer computes the specified code and state, ends despite `pos--`, and leaves the rest of the array alone |
| JsmnParser.Parser.AnyOpen | software/ipv6_tunnel/lib/jsmn/jsmn.c:236-243 | the final scan finds an open container if and only if there is one |
| JsmnForest.StepKeeps | software/ipv6_tunnel/lib/jsmn/jsmn.c:140-234 | every round keeps the table a forest in preorder, sizes exact, `toksuper` its highest open token |
| JsmnForest.FreshRun | software/ipv6_tunnel/lib/jsmn/jsmn.c:134-244 | success means a complete forest: increasing starts, spans nested or disjoint, right brackets and quotes at the ends, `size` the number of children |
| JsmnForest.EndOfRun | software/ipv6_tunnel/lib/jsmn/jsmn.c:140-243 | success is only reported at the end of the text; elsewhere the parser stands before the refused round |
| JsmnForest.CloseStep | software/ipv6_tunnel/lib/jsmn/jsmn.c:160-203 | in both builds a closing bracket acts on the innermost open container; the exact difference when there is none |
| JsmnParentLinks.LinksRefineScan | software/ipv6_tunnel/lib/jsmn/jsmn.c:150-203 | on every text and table size both builds agree if and only if the scanning one does not stop at a bracket with nothing open |
| JsmnParentLinks.UnmatchedBracketDiffers | software/ipv6_tunnel/lib/jsmn/jsmn.c:166-194 | `[]]` is refused by one build and accepted by the other |
| JsmnResume.StepMore | software/ipv6_tunnel/lib/jsmn/jsmn.c:37-129 | a round that succeeds does the same on a longer text and larger table, unless it cut a primitive |
| JsmnResume.ResumeEqualsFresh | software/ipv6_tunnel/lib/jsmn/jsmn.c:134-244 | calling again after any code, with more text and slots, equals one fresh call if and only if no primitive was cut |
| JsmnResume.ChunkedEqualsOneShot | software/ipv6_tunnel/lib/jsmn/jsmn.c:134-244 | any number of interruptions ends exactly as one fresh call on the final text and table if and only if no call but the last cut a primitive |
| JsmnPrintParse.CloseBox | software/ipv6_tunnel/lib/jsmn/jsmn.c:160-203 | after its children the closing bracket closes the right container and restores the stack |
| JsmnPrintParse.PrintThenParse | software/ipv6_tunnel/lib/jsmn/jsmn.c:134-244 | the print of every proper forest is accepted and gives exactly its preorder listing, in both builds |
| JsmnLanguage.AcceptsExactlyPrints | software/ipv6_tunnel/lib/jsmn/jsmn.c:134-244 | in the build the tunnel uses, without parent links, a text is accepted if and only if it is the print of a proper forest that fits the table |
| JsmnLanguage.AcceptedIsPrinted | software/ipv6_tunnel/lib/jsmn/jsmn.c:134-244 | in the build without parent links, from an accepted text the forest it prints is recovered |
| JsmnLinksLanguage.PassesOver | software/ipv6_tunnel/lib/jsmn/jsmn.c:162-180 | with parent links, nothing open and a token in the table a closing bracket is passed over like a blank |
| JsmnLinksLanguage.RunTwin | software/ipv6_tunnel/lib/jsmn/jsmn.c:140-234 | texts that differ only by brackets and blanks outside all tokens and behind the first give the same result |
| JsmnLinksLanguage.AcceptedIsBracketed | software/ipv6_tunnel/lib/jsmn/jsmn.c:134-244 | in the build with parent links, from an accepted text the forest and the blanks its stray brackets stand for are recovered |
| JsmnLinksLanguage.LinksAcceptExactly | software/ipv6_tunnel/lib/jsmn/jsmn.c:134-244 | that build accepts exactly the prints with brackets for such blanks, and its table is the forest's listing |
| JsmnCodes.NoMemExactly | software/ipv6_tunnel/lib/jsmn/jsmn.c:10-20 | out of memory is reported if and only if one more slot changes what the call gives, and then the table is full |
| JsmnCodes.MoreSlots | software/ipv6_tunnel/lib/jsmn/jsmn.c:10-20 | a call that does not run out of slots gives the same with any larger table |
| JsmnCodes.PartOrInval | software/ipv6_tunnel/lib/jsmn/jsmn.c:37-244 | after the code for a partial text some longer text is accepted; after the one for an invalid text none is, but exactly for a text cut behind a backslash in a string |
| JsmnCodes.EscapeCutIsRefused | software/ipv6_tunnel/lib/jsmn/jsmn.c:108-125 | such a text: refused as invalid although it could go on |
| JsmnCodes.CutBoxIsRefused | software/ipv6_tunnel/lib/jsmn/jsmn.c:134-244 | the text of an object or array that is cut anywhere is not accepted, in either build and with any table |
| ClientHandshake.Client.WriteId | software/ipv6_tunnel/client.c:161-165 | what is sent is the request with the hardware address up to its first NUL, whatever was there before |
| ClientHandshake.RequestIsWhole | software/ipv6_tunnel/client.c:161-165 | for an address without a NUL that is the whole request |
| ClientHandshake.Client.StorePrefix | software/ipv6_tunnel/client.c:178-200 | the lookup over the token array does to the buffer what the specification says |
| ClientHandshake.Client.GetPrefix | software/ipv6_tunnel/client.c:151-206 | what is sent, what the reply does, and that failed calls leave the buffer alone |
| ClientHandshake.FindsFirst | software/ipv6_tunnel/client.c:191-196 | the lookup finds the first of nine tokens that spells the key, and nothing only if none does |
| ClientHandshake.ReplyLayout | software/ipv6_tunnel/server.go:140-148 | the server's reply is a proper forest of three tokens |
| ClientHandshake.ReplyStores | software/ipv6_tunnel/client.c:178-201 | the reply to a plain prefix of 1 to 47 characters stores exactly that prefix |
| ClientHandshake.CutReplyFails | software/ipv6_tunnel/client.c:178-185 | a reply cut short, wherever, is a failure and leaves the buffer alone |
| ClientHandshake.UnprintedFails | software/ipv6_tunnel/client.c:178-185 | so is any text that is not the print of a tree of at most ten tokens |
| ClientHandshake.EmptyReply | software/ipv6_tunnel/client.c:191-206 | a reply with an empty prefix fails if and only if the buffer was cleared; else the earlier prefix counts as received |
| ClientHandshake.PrintedReply | software/ipv6_tunnel/client.c:181-206 | for any well-formed reply: the token behind the first of nine that spells the key is copied; without the key among nine the earlier prefix counts; all else is out of bounds |
| ClientHandshake.StoredReadsBack | software/ipv6_tunnel/client.c:191-203 | the uncleared buffer reads as the new prefix if and only if the old text ends where it ends |
| ClientHandshake.ReconnectsKeepPrefix | software/ipv6_tunnel/client.c:178-206 | with the same prefix in each reply, every reconnect succeeds and leaves exactly it |
| Reconnects.ClientKeepsItsPrefix | software/ipv6_tunnel/prefix.go:27-64 | through any requests and restarts in between, every reply to one client carries one prefix, is parsed and stored, and its buffer reads as that |
| Reconnects.RenderIsPlain | software/ipv6_tunnel/client.c:178-201 | what the allocator hands out fits the client's buffer and needs no escapes |
| LinkLayer.StepKeepsExactly | tinyos/tos/chips/cc2520linux/CC2520LinuxLinkP.nc:35-127 | every event keeps exactly one task, timer or lower send under way, except exactly a second granted cancel while the lower send is out |
| LinkLayer.CancelOnceIsEnough | tinyos/tos/chips/cc2520linux/CC2520LinuxLinkP.nc:111-127 | if no accepted send is cancelled twice that case never comes |
| LinkLayer.ExactlyOnce | tinyos/tos/chips/cc2520linux/CC2520LinuxLinkP.nc:35-127 | every accepted send is reported once and in order, none is stranded, in any order of events |
| LinkLayer.CounterNeverWraps | tinyos/tos/chips/cc2520linux/CC2520LinuxLinkP.nc:28-44 | the 16-bit retry counter never overflows |
| LinkLayer.DoubleCancelBreaks | tinyos/tos/chips/cc2520linux/CC2520LinuxLinkP.nc:111-127 | a run with two cancels of one send after which a message is reported while its lower send is out |
| LinkRetries.AttemptBound | tinyos/tos/chips/cc2520linux/CC2520LinuxLinkP.nc:38-80 | at most N attempts; FAIL means N and none acknowledged, SUCCESS the ack flag; the stored retry field ends as the number of unacknowledged attempts |
| LinkRetries.StepCounts | tinyos/tos/chips/cc2520linux/CC2520LinuxLinkP.nc:35-93 | each step keeps the counts of attempts and unacknowledged attempts in step with the retry counter |
| LinkRetries.AcceptStarts | tinyos/tos/chips/cc2520linux/CC2520LinuxLinkP.nc:95-109 | an accepted send starts the counts |
| LinkRetries.ReportedInBoundedSteps | tinyos/tos/chips/cc2520linux/CC2520LinuxLinkP.nc:35-93 | left to itself, whatever the retries have been changed to, the layer makes a bounded number of steps and then has reported |
| LinkRetries.NeverStranded | tinyos/tos/chips/cc2520linux/CC2520LinuxLinkP.nc:35-127 | after any run without a second cancel, left to itself the layer comes to have reported all it accepted |
| LinkRetries.AlwaysProgress | tinyos/tos/chips/cc2520linux/CC2520LinuxLinkP.nc:35-127 | while a message is held something that leads on can happen |
| LinkReports.RefusedExactly | tinyos/tos/chips/cc2520linux/CC2520LinuxLinkP.nc:95-114 | busy exactly while a message is held, a cancel refused exactly for a message not held, and then nothing changes |
| LinkReports.AcceptedGoesDown | tinyos/tos/chips/cc2520linux/CC2520LinuxLinkP.nc:58-109 | an accepted message goes down with the next task; of all metadata only its own acknowledgement request is set, with retries |
| LinkReports.ErrorReported | tinyos/tos/chips/cc2520linux/CC2520LinuxLinkP.nc:70-89 | an error of the lower layer is reported as that error with no further attempt |
| LinkReports.WaitingCancelled | tinyos/tos/chips/cc2520linux/CC2520LinuxLinkP.nc:111-127 | a granted cancel of a message not on its way is reported as such by the next task |
| LinkReports.SentCancelled | tinyos/tos/chips/cc2520linux/CC2520LinuxLinkP.nc:83-127 | one on its way is waited for and then reported as cancelled, acknowledged or not, or with the error it completed with |
| LinkReports.RefusedCounts | tinyos/tos/chips/cc2520linux/CC2520LinuxLinkP.nc:38-80 | a lower send that is refused counts as an attempt: without retries it is reported as sent |
| LinkComponent.LinkP.SendTask | tinyos/tos/chips/cc2520linux/CC2520LinuxLinkP.nc:35-81 | the send task does what the state machine does |
| LinkComponent.LinkP.AfterAttempt | tinyos/tos/chips/cc2520linux/CC2520LinuxLinkP.nc:40-58 | after an attempt: report, try again, or try again after the delay |
| LinkComponent.LinkP.Attempt | tinyos/tos/chips/cc2520linux/CC2520LinuxLinkP.nc:60-68 | one lower send, and the send task queued again if it is refused |
| LinkComponent.LinkP.SignalSendDone | tinyos/tos/chips/cc2520linux/CC2520LinuxLinkP.nc:70-80 | the report, and the retry field it stores |
| LinkComponent.LinkP.SubSendDone | tinyos/tos/chips/cc2520linux/CC2520LinuxLinkP.nc:83-89 | the lower completion does what the state machine does |
| LinkComponent.LinkP.TimerFired | tinyos/tos/chips/cc2520linux/CC2520LinuxLinkP.nc:91-93 | the delay is over and the send task queued |
| LinkComponent.LinkP.Send | tinyos/tos/chips/cc2520linux/CC2520LinuxLinkP.nc:95-109 | acceptance or EBUSY as in the state machine |
| LinkComponent.LinkP.Cancel | tinyos/tos/chips/cc2520linux/CC2520LinuxLinkP.nc:111-127 | cancel as in the state machine |
| SendDriver.HeaderRoundTrip | tinyos/tos/chips/cc2520linux/CC2520LinuxSendP.nc:265-267 | the child reads back the address and length byte that were put into the header |
| SendDriver.PipeIsFaithful | tinyos/tos/chips/cc2520linux/CC2520LinuxSendP.nc:136-168 | any sequence of records is decoded into exactly their frames, in order |
| SendDriver.WholeWriteAcked | tinyos/tos/chips/cc2520linux/CC2520LinuxSendP.nc:52-74 | a frame written whole is recorded as acknowledged unless its number of bytes is 252, 253 or 254, which are error codes as well |
| SendDriver.AckCodes | tinyos/tos/chips/cc2520linux/CC2520LinuxSendP.nc:52-74 | by number: 0 sets the ack flag, 252, 253 and 255 clear it, 254 leaves it alone, any other sets it if and only if it is the whole length |
| SendDriver.SendP.BareSend | tinyos/tos/chips/cc2520linux/CC2520LinuxSendP.nc:234-282 | header and body are appended to the pipe |
| SendDriver.SendP.ChildRound | tinyos/tos/chips/cc2520linux/CC2520LinuxSendP.nc:136-175 | one round with the packet buffer filled in place: the frame written and the answer passed on |
| SendDriver.SendP.ReceiveReady | tinyos/tos/chips/cc2520linux/CC2520LinuxSendP.nc:200-232 | one answer into the slot and the completion task queued; nothing on a call without cause |
| SendDriver.SendP.SendDoneTask | tinyos/tos/chips/cc2520linux/CC2520LinuxSendP.nc:52-77 | the message reported and the ack flag, by return code |
| RadioStack.RadioP.constructor | tinyos/tos/chips/cc2520linux/CC2520LinuxRadioP.nc:68-69 | the first sequence number comes from the node's identifier, in eight bits |
| RadioStack.RadioP.Stamp | tinyos/tos/chips/cc2520linux/CC2520LinuxRadioP.nc:116-131 | length byte and sequence number are filled in, every other byte stays the client's |
| RadioStack.StackStepKeeps | tinyos/tos/chips/cc2520linux/CC2520LinuxSendP.nc:52-282 | every step of any part keeps one record at most, of the current message, and the frames and numbers right |
| RadioStack.OneRecordAtATime | tinyos/tos/chips/cc2520linux/CC2520LinuxSendP.nc:200-232 | one record at most between link and completion; the slot is never overwritten before it is consumed and holds the current message |
| RadioStack.FramesAreFaithful | tinyos/tos/chips/cc2520linux/CC2520LinuxRadioP.nc:116-132 | every frame on the radio, retries included, is one for each attempt and the client's bytes at the call: changed only in the length byte, the sequence number, counted by calls, and the acknowledgement bit, set if and only if the message has retries |
| RadioStack.AcceptedFrame | tinyos/tos/chips/cc2520linux/CC2520LinuxRadioP.nc:116-132 | what an accepted send asks for: the client's bytes with length, sequence number and acknowledgement bit filled in |
| RadioAnswers.FirstAttempt | tinyos/tos/chips/cc2520linux/CC2520LinuxRadioP.nc:116-132 | from any quiet state an accepted send gets to its first attempt |
| RadioAnswers.Answered | tinyos/tos/chips/cc2520linux/CC2520LinuxSendP.nc:52-77 | an answer of 0 arrives at the link layer as acknowledged, of 252, 253 or 255 as not |
| RadioAnswers.TriesAgain | tinyos/tos/chips/cc2520linux/CC2520LinuxLinkP.nc:38-56 | a lost attempt with attempts left is made again, after the delay if there is one |
| RadioAnswers.AnswersDecide | tinyos/tos/chips/cc2520linux/CC2520LinuxLinkP.nc:38-80 | through all attempts of a message: answered 0 it is reported as sent with no further attempt, with every attempt lost as failed |
| RadioStack.NumbersDiffer | tinyos/tos/chips/cc2520linux/CC2520LinuxRadioP.nc:124-129 | accepted sends fewer than 256 calls apart carry different sequence numbers |
| RadioStack.LengthDecides | tinyos/tos/chips/cc2520linux/CC2520LinuxSendP.nc:136-175 | a message is answered by the child, and its bytes are on the radio, if and only if its length is from 2 to 254 |
| RadioStack.NeverReported | tinyos/tos/chips/cc2520linux/CC2520LinuxSendP.nc:153-175 | otherwise the child has ended and the send is never reported, one cancel or not |
| RadioStack.TouchedFrame | tinyos/tos/chips/cc2520linux/CC2520LinuxSendP.nc:265-274 | a message written to before its attempt reaches the radio as asked for if and only if it still holds those bytes |
| RadioStack.WrittenFrameDiffers | tinyos/tos/chips/cc2520linux/CC2520LinuxSendP.nc:265-274 | a run in which it does not |
| RadioStack.ResubmittedFrameDiffers | tinyos/tos/chips/cc2520linux/CC2520LinuxRadioP.nc:116-132 | a message sent again while in flight is refused, but goes out with the new number |
| AssignmentFile.UnmarshalMarshal | software/ipv6_tunnel/prefix.go:57-60 | every map is read back from its text |
| AssignmentFile.CutIsUnreadable | software/ipv6_tunnel/prefix.go:74-77 | a text that has lost its end is unreadable |
| AssignmentFile.MarshalGrows | software/ipv6_tunnel/prefix.go:57-60 | a new entry makes the text longer |
| AssignmentFile.RereadExactly | software/ipv6_tunnel/prefix.go:57-60 | without truncation the file reads back if and only if what is left behind the text is blank |
| AssignmentLayout.ReadsLayout | software/ipv6_tunnel/prefix.go:74-77 | an object of strings is read as the map it stands for wherever JSON allows blanks, the last of equal keys counting, and refused if anything else follows it |
| AssignmentLayout.MarshalIsLayout | software/ipv6_tunnel/prefix.go:57-60 | the text written has every key once and in byte order, and no blanks |
| AssignmentLayout.EscapeIs | software/ipv6_tunnel/prefix.go:57-60 | quotes and backslashes are written behind a backslash, other characters as they are |
| PrefixManager.Manager.constructor | software/ipv6_tunnel/prefix.go:66-99 | start-up loads the assignments, rebuilds the used set and masks the range |
| PrefixManager.Manager.GetPrefix | software/ipv6_tunnel/prefix.go:27-64 | the search loop, which ends even where `i++` wraps, and the rewritten file do what the specification says |
| PrefixManager.Search | software/ipv6_tunnel/prefix.go:33-54 | the first free prefix at or above a start, or none if and only if all in the range are taken |
| PrefixManager.RenderReads | software/ipv6_tunnel/prefix.go:37-39 | the text of a prefix is the sixteen hexadecimal digits of its upper half before `::/64` |
| PrefixManager.RenderInjective | software/ipv6_tunnel/prefix.go:37-39 | different prefixes have different texts |
| PrefixManager.RangeOfValid | software/ipv6_tunnel/prefix.go:84-95 | the masked address is the lowest of exactly those that agree with it in the first `length` bits |
| PrefixManager.RangeIsBlock | software/ipv6_tunnel/prefix.go:84-95 | the masked range is a contiguous block that ends within 64 bits |
| PrefixManager.GetKeeps | software/ipv6_tunnel/prefix.go:27-64 | assignments stay injective and in the range, the used set exactly theirs |
| PrefixManager.Allocates | software/ipv6_tunnel/prefix.go:27-64 | a known id keeps its prefix, a new one gets the lowest free one, the error comes exactly when all are taken |
| PrefixManager.GetTracks | software/ipv6_tunnel/prefix.go:57-60 | after each call the file is exactly the text of the assignments |
| PrefixManager.RestartRestores | software/ipv6_tunnel/prefix.go:70-82 | a restart finds the same assignments if and only if the file is within 12000 bytes |
| PrefixManager.AssignmentsSurvive | software/ipv6_tunnel/prefix.go:27-99 | through any requests and restarts within that limit every id keeps its prefix |
| PrefixManager.StartFiles | software/ipv6_tunnel/prefix.go:73-82 | a short file that is blank or an empty object is good to start on |
| PrefixManager.StartFileExamples | software/ipv6_tunnel/prefix.go:73-82 | no text at all, `{}` and `{}` with a newline are such files |
| PrefixManager.LongJunkLosesAssignments | software/ipv6_tunnel/prefix.go:57-82 | on a file that begins as no JSON value does the first assignment survives a restart if and only if the rest of the old content is blank |
| PrefixManager.RestartAfterGet | software/ipv6_tunnel/prefix.go:57-82 | on any plain file, an object written by hand included, a restart after a request finds the assignments if and only if the rest of the old content is blank, and else nothing |
| PrefixManager.FirstAssignmentLost | software/ipv6_tunnel/prefix.go:57-82 | an unreadable file and an empty object with many blanks on which the first assignment is lost |
| TunIds.TunManager.GetNewTunName | software/ipv6_tunnel/tunindex.go:19-36 | the lowest free number is marked and named; with none free it is 0 |
| TunIds.TunManager.UnsetTunName | software/ipv6_tunnel/tunindex.go:38-46 | the number read from the name is free again |
| TunIds.NameNumber | software/ipv6_tunnel/tunindex.go:32-42 | trimming and reading a name gives its number back |
| TunIds.NewNameIsFresh | software/ipv6_tunnel/tunindex.go:22-30 | of the numbers 0 to 15 the lowest nobody holds, or 0 if all are held |
| TunIds.NamesDiffer | software/ipv6_tunnel/tunindex.go:32 | different numbers have different names |
| TunIds.SixteenNames | software/ipv6_tunnel/tunindex.go:32 | the names are `tun0` to `tun15` |
| ClientLocks.Locks.MutexOf | software/ipv6_tunnel/server.go:36-41 | the mutex of a known client, a fresh one otherwise; no two clients ever share one |
| ClientLocks.Locks.LockClient | software/ipv6_tunnel/server.go:33-46 | exactly this client's lock is taken, every other stays as it is |
| ClientLocks.Locks.UnlockClient | software/ipv6_tunnel/server.go:48-54 | exactly this client's lock is given back |
| TunnelSession.SessionStepKeeps | software/ipv6_tunnel/server.go:57-98 | every step of the three goroutines keeps the relay exact and their states in step |
| TunnelSession.RelayConserves | software/ipv6_tunnel/server.go:185-221 | both directions lose and reorder nothing but the one packet in hand at the teardown; all chunks are written when the quit is handled |
| TunnelSession.ReleaseAfterClose | software/ipv6_tunnel/server.go:86-93 | the TUN name is released only after the interface is closed |
| TunnelSession.EndsUnlessStuck | software/ipv6_tunnel/server.go:199-218 | once the disconnect is noticed the session can end if and only if the TUN goroutine is not past its look with a packet in hand |
| TunnelSession.TeardownEnds | software/ipv6_tunnel/server.go:80-98 | from then on every interleaving is finite and ends with the name released or stuck; released if the quit came before the look |
| TunnelSession.NeverBlocked | software/ipv6_tunnel/server.go:204-217 | given the wake-up packet, something can always happen until the end |
| TunnelSession.StuckForever | software/ipv6_tunnel/server.go:97 | the stuck state is never left and the name never released |
| TunnelSession.GetsStuck | software/ipv6_tunnel/server.go:86-97 | a run of four steps from the beginning of a session to that state |
| TunnelServer.ServerStepKeeps | software/ipv6_tunnel/server.go:102-226 | every step of every connection keeps locks, prefixes and names with their owners |
| TunnelServer.SessionsIsolated | software/ipv6_tunnel/server.go:33-54 | two connections between lock and unlock are of different ids, with different prefixes from when they have them, and different TUN numbers while they hold them |
| TunnelServer.ReleasedAfterClose | software/ipv6_tunnel/server.go:215-225 | a name is released and a client unlocked only when the session's interface is closed |
| TunnelServer.LockFreeExactly | software/ipv6_tunnel/server.go:33-54 | a waiting connection can take its client's lock if and only if no other connection of that client holds it |
| TunnelServer.NamesInUseExactly | software/ipv6_tunnel/server.go:157-217 | the numbers in use are exactly those of the sessions not ended |
| TunnelServer.FullNamesCollide | software/ipv6_tunnel/tunindex.go:22-32 | with all sixteen held, the next session is given the number 0 that another one holds |
| ServerRuns.NamesCanCollide | software/ipv6_tunnel/server.go:102-158 | there is a run of a server just started that leads there |
| TunnelRelease.CanRelease | software/ipv6_tunnel/server.go:48-54 | from wherever the other connections are, a session that is ending and not stuck can come to its end with its client's lock free |
| TunnelRelease.UnsentReleases | software/ipv6_tunnel/server.go:148-155 | a client that cannot be sent its prefix keeps its assignment, gets no name, and its lock can come free |
| TunnelRelease.StaysItself | software/ipv6_tunnel/server.go:102-226 | a connection keeps its client, its prefix and its number from step to step, and changes no other |
| TunnelRelease.UnknownLeavesNothing | software/ipv6_tunnel/server.go:110-118 | a client gone before it identified itself leaves nothing behind |
| TunnelRelease.OwnStepsBounded | software/ipv6_tunnel/server.go:199-225 | with the quit put and not stuck, or unlocking, a connection makes a bounded number of steps of its own in every run, and leaves its way out only at its end |
| TunnelRelease.OnlyTheTableWaits | software/ipv6_tunnel/server.go:48-54 | until its end it can always go on, but for the table's lock in other hands, and then their holder can |
| TunnelRelease.TableComesFree | software/ipv6_tunnel/server.go:33-54 | the holder of the table's lock gives it back within its next two steps, in every run |
| TunnelRelease.StuckKeepsLock | software/ipv6_tunnel/server.go:94-98 | a stuck session keeps its client's lock through every run |
| TunnelRelease.ReleasableExactly | software/ipv6_tunnel/server.go:199-225 | after the disconnect is noticed the client's lock can come free if and only if the session is not stuck |
| ServerRuns.SessionCanGetStuck | software/ipv6_tunnel/server.go:86-97 | there is a run of a server just started that leads to a stuck session |
| IniParser.Rstrip | software/ipv6_tunnel/lib/ini/ini.c:24-30 | in place: the string without the spaces at its end, the buffer outside it unchanged |
| IniParser.Lskip | software/ipv6_tunnel/lib/ini/ini.c:33-38 | the first character that is no space |
| IniParser.FindCharOrComment | software/ipv6_tunnel/lib/ini/ini.c:43-51 | the first such character, or `;` after a space, or the end |
| IniParser.Strncpy0 | software/ipv6_tunnel/lib/ini/ini.c:54-59 | as much as fits, always terminated |
| IniParser.Parser.SectionLine | software/ipv6_tunnel/lib/ini/ini.c:115-127 | a section line sets the section and forgets the previous name, or is an error |
| IniParser.Parser.TrimValue | software/ipv6_tunnel/lib/ini/ini.c:137-141 | in place: the value without surrounding spaces and comment, the buffer before it unchanged |
| IniParser.Parser.PairLine | software/ipv6_tunnel/lib/ini/ini.c:134-147 | the call a name/value line makes, with the name remembered |
| IniParser.Parser.ContinuationLine | software/ipv6_tunnel/lib/ini/ini.c:108-113 | the call an indented line makes for the previous name |
| IniParser.Parser.DoLine | software/ipv6_tunnel/lib/ini/ini.c:92-152 | a line in the buffer does what the specification says, byte order mark included |
| IniParser.Parser.ReadLine | software/ipv6_tunnel/lib/ini/ini.c:91 | one read takes a line or as much as fits |
| IniParser.Parser.ParseFile | software/ipv6_tunnel/lib/ini/ini.c:62-160 | the whole in-place parse makes the specified calls and result |
| IniLayout.LineMeans | software/ipv6_tunnel/lib/ini/ini.c:94-152 | one printed line does exactly what its item means, for every handler |
| IniFiles.ParsePrinted | software/ipv6_tunnel/lib/ini/ini.c:62-160 | parsing a printed file, with or without a newline at its end, does exactly what its items mean, for every handler |
| IniFiles.MeansCalls | software/ipv6_tunnel/lib/ini/ini.c:91-159 | for every handler: one call for each pair or continuation, in order, and the number of the first line that is bad or refused |
| IniFiles.BadLinesChangeOnlyTheResult | software/ipv6_tunnel/lib/ini/ini.c:91-159 | for every handler the calls are the same as if the bad lines were not there, and the result is that number |
| IniFiles.EveryLineIsAnItem | software/ipv6_tunnel/lib/ini/ini.c:94-152 | every line without a NUL is a printed item |
| IniFiles.EveryFileParses | software/ipv6_tunnel/lib/ini/ini.c:62-160 | so for every file without NULs and lines that are cut, calls and result are those of its items |
| IniFiles.LongLineIsCut | software/ipv6_tunnel/lib/ini/ini.c:91 | the first 199 characters of a longer line are a line of their own, and what follows them is the next |
| IniFiles.NulHidesTheRest | software/ipv6_tunnel/lib/ini/ini.c:91-102 | what stands in a line behind a NUL is not there |
| AtomicSections.StepKeeps | tinyos/tos/chips/linux/linux_atomic.h:17-53 | every step, signals and returns included, leaves flag, saved mask and mask what the code in progress says |
| AtomicSections.NestingRestores | tinyos/tos/chips/linux/linux_atomic.h:43-53 | in every run, once the same code is in progress again the mask and the flag are what they were |
| AtomicSections.NoSignalInside | tinyos/tos/chips/linux/linux_atomic.h:17-41 | no signal can be delivered between the outermost start's mask change and that of its end, except while a sleep waits |
| AtomicSections.OpenOutside | tinyos/tos/chips/linux/linux_atomic.h:36-41 | outside all sections a signal can be delivered if and only if neither the first mask nor a running handler blocks it |
| AtomicSections.StartAlone | tinyos/tos/chips/linux/linux_atomic.h:17-47 | the single steps of a start, undisturbed, are the whole call |
| AtomicSections.EndAlone | tinyos/tos/chips/linux/linux_atomic.h:36-53 | the single steps of an end, undisturbed, are the whole call |
| AtomicSections.Interrupts.DisableInterrupt | tinyos/tos/chips/linux/linux_atomic.h:17-34 | all signals blocked, the mask saved only if interrupts were enabled |
| AtomicSections.Interrupts.EnableInterrupt | tinyos/tos/chips/linux/linux_atomic.h:36-41 | the saved mask in force again |
| AtomicSections.Interrupts.AtomicStart | tinyos/tos/chips/linux/linux_atomic.h:43-47 | returns the flag as it was |
| AtomicSections.Interrupts.AtomicEnd | tinyos/tos/chips/linux/linux_atomic.h:49-53 | enables again if and only if told to |

## Left out

- System calls, sockets, ioctl, fork, shell commands and the TUN device: pipes are byte sequences, TCP and TUN are streams of packets, and whether a call succeeds is an event or a parameter.
- `log.Fatal` and `exit` end the run and are not steps of the model; a failed `getPrefix` ends the server this way.
- jsmn with `JSMN_STRICT`, which the build does not use; texts are shorter than 2^31 characters, so `int` positions do not wrap.
- The numeric values of jsmn's codes and token types, which `jsmn.h` defines, are constructors here.
- Reads of token entries the parser never filled, and copies beyond the client's buffer, are reported as `Undefined` by `ClientHandshake.Handle`.
- The client's socket set-up, TUN handling, main loop and reading of its configuration.
- Go's shortest text for an IPv6 prefix: `PrefixManager.Render` is an injective text of fixed length; nothing proved about assignments depends on more than that and the bounds of `Reconnects.RenderIsPlain`.
- Go's JSON: the written text has sorted keys and escapes only quotes and backslashes, control characters are written and read as they are. The reader here takes blanks before and behind every token, but of values only strings with those two escapes; what is proved speaks of files the server wrote, of blank files and empty objects, and of files that begin as no JSON value does.
- Assignment files not written under the configured range, ranges of length 0 or above 64, and IPv4 texts.
- The prefix manager's own lock: each request is one step of the server.
- `TunnelServer` does not model the identifier's JSON; an identifier that arrives is a string. Its unreadable requests, which are ignored, are no steps.
- `TunnelServer` and `TunnelSession` are transition systems on values, one step for each action of each goroutine, not methods: the Go code's goroutines block on each other and loop without end. `ClientLocks` has the lock calls as methods from the moment their waits are over.
- The wake-up packet of the teardown is assumed to arrive (`TunnelSession.NeverBlocked`); failed writes to TCP and TUN count as written, as the code does not look.
- A failing `tuntap.Open` ends the program and is no step; `TunnelServer` has the state before it, in which a name is already held.
- TunnelServer.SessionsIsolated: is under the condition that fewer than sixteen names are held whenever one is taken; `TunnelServer.FullNamesCollide` shows what happens otherwise.
- RadioStack.FramesAreFaithful: clients do not touch a message in flight, give lengths from 2 to 254, and do not cancel a send twice while it is out. `RadioStack.LengthDecides`, `TouchedFrame`, `ResubmittedFrameDiffers` and `LinkLayer.DoubleCancelBreaks` show what happens without each of these rules.
- RadioStack.NumbersDiffer: speaks of frames long enough to contain the sequence number.
- LinkRetries.AttemptBound: is for a message whose metadata nobody changes, without lower-layer errors and granted cancels.
- The child process reads whole records. After a body read of nothing it closes its pipes, makes its last write and fails at the next read: the model has that write and then the end of the child. What the parent's later writes into a pipe nobody reads do is left out. Messages are 256 bytes long.
- Error codes other than success, failure, cancelled and busy are one constructor with a number.
- The receive path, the address, power-save and metadata accessors of `CC2520LinuxRadioP.nc`: each is one assignment or one read.
- `IniFiles` prints lines that fit the buffer; those that one read cuts and those with a NUL have lemmas of their own, and `IniParser` and `IniLines` handle all of them.
- `ini_parse`, which opens the file, the build of inih that uses the heap, and characters as values of the C locale's `isspace`.
- AtomicSections.NoSignalInside: is for the signals that can be blocked; a sleep is opened in the code of a section only, as the scheduler does.
- `RplBorderRouterP.nc`, `DumpHopHopP.nc`, the socket and UART wrappers, the GPIO and LED modules, wiring files and applications: mostly one branch each.
