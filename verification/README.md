# Verification of the delivery service

This project models the parts of the delivery service in which state, concurrency or formats make
mistakes likely, and proves what they keep. `dafny verify dfyconfig.toml` checks all of it.

## What is modelled

**The delivery queue** (`internal/queue/worker.go`). `Delivery` is the concurrent machine: every
access of a goroutine to the channel, the counter, `lastReset` or the database is one step, and a run
is any interleaving of handlers, workers, rate-limit sleepers and scheduler ticks. `Warmup`, `Custody`
and `Recovery` prove the limiter, the custody of messages and crash recovery over every run, and
`Attained` gives the runs that reach the limiter's bounds. `Effects` proves, over every run, what
sends leave behind: times of sending, log, suppression list, owners, and the order of the channel.
`Serial` makes `process` atomic and proves that its turns are stretches of the concurrent machine;
`History` proves replay of the event log and termination for serial runs; `Queue` is the Queue object,
each method proved against that machine. `Duplicates` settles what duplicates in the channel do with
one worker and with more. `Sender` models `Send` with every exchanger it tries and the classification
of failures, and `Composition` is the queue with `Send` as it is written.

**The message format** (`internal/smtp/message.go`). `Base64` is section 4 of RFC 4648 with the
wrapping of section 6.8 of RFC 2045. `Message` is the builder as loops over a growing string, proved
against the list of lines it writes. `Mime` is a reader written without regard to the builder: it
finds fields by name in any case, unfolds them, refuses repeated content types and encodings, takes
text only from parts typed as text in UTF-8, decodes base64 alone, lets a multipart name no encoding
but the identity (section 6.4 of RFC 2045), and finds parts by section 5.1.1 of RFC 2046.
`HeaderBlock`, `FieldReading`, `HeaderValues`, `RoundTrip`, `FileParts` and `ParseBack` prove that
reading undoes building, with the exact condition, for header maps and content types of any text;
`Copies` shows why one kind of content type is set aside. `Send` carries attachments from the request
(`internal/handlers/send.go`) to the wire, and `Scanner` proves the relay's header scanner against
both the data and the builder.

**Streams and the badge** (`internal/sse/hub.go`, `internal/handlers/notifications.go`). `Hub` is the
bounded fan-out with the full account of every stream; `Badge` and `Notifications` are the handlers
around the table and the unread count each client shows.

**The relay session** (`internal/smtp/relay.go`): `Relay`, the session as a function of its history.

**Agreement results**: `Domains` (DNS setup against DNS verification) and `Tenants` (the tenant report
against the global statistics).

`Tally` and `Wrappers` are helpers.

## Assumptions

- The database does what it is told, and each statement is one step. The clock is a monotone integer
  that may advance by any amount; a sleeper may wake, and the scheduler may tick, at any moment. This
  allows more runs than the code has, so the safety results carry over.
- Creating a message row and writing its "queued" event are one step of the machine; enqueueing it is
  another. `Create` has a flag because `ServiceSend` writes no event.
- Each access to the unsynchronised `lastReset` is atomic, and the clock is read in the same step.
- Remote answers, query results in any order, random bytes, dates and derived plain text are
  parameters. Q-encoded text has no CR or LF, and neither has the domain of an address without them.
- Notification handlers are atomic, as is a publish; opening a stream and reading its first count are
  two steps. `RacingHandlersGoStale` shows what happens without the first of these.
- A DNS lookup sees the zone as the provider holds it.
- The queue's clock counts seconds; the times the tenant report compares come from the database and
  count nanoseconds.

## Where the code differs from its comments or from what one would expect

- With w workers the warm-up limit m lets up to m + w - 1 messages leave per reset, and runs reach
  that number (`WarmupBoundUnderRaces`, `BurstAttained`); m is kept by every run exactly with one worker
  (`LimitKeptIffOneWorker`). Each worker can reset the counter for one and the same hour (`ResetsAttained`).
- `Send` re-wraps its last failure as text, so `process` never sees an SMTP error: retries, the
  suppression list and the "bounced" event are unreachable (`SendHidesSmtpErrors`, `OneAttemptAsWritten`).
- The status "bounced", which the statistics count, is never written (`BouncedColumnIsZero`).
- `Start` fills the channel before it starts a worker, so it blocks forever if more than 10000 rows
  are to be recovered (`PushRecovered`, `DeliveryQueue.Start`).
- Whatever duplicates the channel holds, no interleaving delivers a message twice exactly if there is at
  most one worker (`OneWorkerAtMostOnce`, `SentTwice`, `AtMostOnceIffOneWorker`). These are results about
  the queue for any outcomes; with `Send` as it is written nothing is ever retried (`OneAttemptAsWritten`).
- With any number of workers, one included, a crash can leave a message out of reach (`CrashCanLose`):
  exactly the step that marks a row whose retry time lies ahead makes it so (`StuckBy`).
- A delivered message is reported as failed if only QUIT fails, and the next exchanger is then handed
  another copy (`FailsThoughDelivered`, `DeliveredTwice`, `TwoCopiesOneSuccess`).
- HTML without a given or derivable plain text is dropped; content types are not sanitised (`PartBytesBack`,
  `BlankLineInType`); and an extra header may repeat any fixed field (`FixedFieldOnce`) or contradict the
  content type, the encoding, the version or the disposition (`OverrideBreaks`, `SecondEncodingBreaks`,
  `ParsingUndoesBuilding`).
- HTML that begins like a header is sent raw and its attachments are dropped (`RawDropsAttachments`);
  a relayed message that begins with any other field is wrapped as the HTML of a new one (`RelayedVerbatim`).
- A notification inserted while in-app delivery is off raises the count without telling open streams
  (`SilentBreaksTheBadge`).
- DATA leaves the recipients of the relay session in place (`DataQueuesRecipients`).
- Setup overwrites the first TXT record at the domain itself, whatever it is for (`RunKeepsTheRest`);
  the SPF value shown to the user is not the one setup writes (`ShownRecordsPass`); and verification
  panics on a key shorter than 40 characters (`SendingDomain.Verify`).

## Model

| member | source | states |
|---|---|---|
| Warmup.WarmupBoundUnderRaces | internal/queue/worker.go:71-86 | with limit m and w workers, in every interleaving the counter plus the workers that may still add to it is at most m + w - 1, at most m with one worker, and successful sends are at most (resets + 1)(m + w - 1) |
| Warmup.HourlyBound | internal/queue/worker.go:74-79 | the limit in real time: after h full hours at most (w h + 1)(m + w - 1) successful sends |
| Warmup.ResetsByTheHour | internal/queue/worker.go:74-77 | the resets of one worker lie more than an hour apart, so elapsed hours times workers bound all resets |
| Warmup.LimitedStep | internal/queue/worker.go:71-167 | every step of every goroutine keeps the limiter invariant |
| Attained.BurstAttained | internal/queue/worker.go:73-86 | for every limit m and w workers there is a run without a reset in which m + w - 1 messages leave, so the bound cannot be lowered |
| Attained.LimitKeptIffOneWorker | internal/queue/worker.go:71-86 | for every limit, every run sends at most m messages per reset if and only if there is one worker |
| Attained.ResetsAttained | internal/queue/worker.go:74-77 | a run of one hour in which each worker resets the counter, so the bound on resets cannot be lowered either |
| Custody.CopiesConserved | internal/queue/worker.go:35-86 | copies of an id in the channel, workers, sleepers, handlers and the scheduler's batch change only by what a step creates, selects or retires |
| Custody.NoMessageLost | internal/queue/worker.go:65-216 | in every interleaving each unfinished message is in flight or is queued with a retry time |
| Custody.SendingAlwaysHeld | internal/queue/worker.go:98-189 | a row marked sending is always held by a worker between its mark and its final write |
| Custody.CustodyFromEmpty | internal/queue/worker.go:65-216 | both custody invariants, for every id at every moment of every run from an empty table |
| Custody.LostAtStart | internal/queue/worker.go:40-49 | a row is out of reach after Start if and only if it is sending with a retry time still ahead |
| Custody.BootCopies | internal/queue/worker.go:41-49 | Start puts each recovered row in the channel once and nothing else |
| Custody.NoDeadlock | internal/queue/worker.go:35-69 | the channel never exceeds its buffer, a busy worker can always take its next step, and something can move while anything is in flight |
| Effects.SentRowsAreStamped | internal/queue/worker.go:160-165 | in every interleaving a sent row records the moment its last success was written, between the start and now, and a row without a written success records none |
| Effects.WriteRowSets | internal/queue/worker.go:160-188 | each outcome of a send changes its own columns of its own row and no other: sent and the time; queued, one more retry and the retry time in 5, 10 or 20 minutes; or failed |
| Effects.RowIsAsCreated | internal/queue/worker.go:88-204 | no run changes whose message a row is or whom it goes to |
| Effects.OnlyTheRefusedAreSuppressed | internal/queue/worker.go:191-198 | in every interleaving a suppressed address is the recipient of a message of that user whose send was refused for good |
| Effects.EverySendIsLoggedOnce | internal/queue/worker.go:160-200 | the books balance in every interleaving: sends are sent, deferred and failed events, successes are sent events, and permanent refusals are bounced events and suppressions, each up to the results workers still hold |
| Effects.QueuedOnceEach | internal/handlers/send.go:185-189 | the log holds one queued event for each message created with one |
| Effects.FinishedStays | internal/queue/worker.go:94-96 | a message sent, delivered or failed before the start is never sent again and its row never changes |
| Effects.ReadGoesOn | internal/queue/worker.go:88-96 | a worker goes on with a row it reads unless there is none or it is sent, delivered or failed |
| Effects.FirstInFirstOut | internal/queue/worker.go:35-69 | what workers have taken followed by what is in the channel is what was put in, in order |
| Effects.LimiterVariables | internal/queue/worker.go:73-77 | in every run the reset time is that of the last reset and the counter is the successes counted since the last zeroing |
| Effects.LimiterDecides | internal/queue/worker.go:73-86 | there is no limit unless it is positive; a reset is due after more than an hour; at the limit the id is parked |
| Effects.QuerySelects | internal/queue/worker.go:209-211 | a tick selects at most a hundred queued rows whose retry time has come, and all of them if there are fewer |
| Recovery.CrashLosesNothing | internal/queue/worker.go:41-52 | after a run with each id in flight at most once, a crash and restart recovers an unfinished row at once if its retry time has passed, and otherwise leaves it queued for the scheduler |
| Recovery.StartSplits | internal/queue/worker.go:41-52 | at Start each unfinished row is exactly one of: recovered, queued and due later, or sending with a retry time ahead |
| Recovery.RipenedRun | internal/queue/worker.go:98-99 | in such runs a row is marked sending only once its retry time has passed |
| Recovery.RipenedAtBoot | internal/queue/worker.go:41-49 | a started queue meets the premise of the recovery theorem for an id exactly unless its row is sending with a retry time ahead |
| Recovery.StuckBy | internal/queue/worker.go:94-99 | one step puts a row out of a later Start's reach if and only if it marks as sending a row whose retry time lies ahead |
| Recovery.PushRecovered | internal/queue/worker.go:47-49 | the recovery loop blocks exactly if more than 10000 rows are recovered |
| Serial.ProcessIsAStretch | internal/queue/worker.go:71-204 | the atomic process is what one uninterrupted worker does in the concurrent machine |
| Serial.SerialIsAnInterleaving | internal/queue/worker.go:65-216 | every serial run is a run of the concurrent machine, so the interleaving theorems apply to it |
| Serial.ProcessEffect | internal/queue/worker.go:71-204 | one call of process changes rows, events, sends and suppressions by exactly one attempt, or not at all |
| History.SerialReplay | internal/queue/worker.go:94-204 | in serial runs status and retries are a replay of the event log; at most 4 sends and at most one success, which happened exactly if the row is sent |
| History.AttemptConsumes | internal/queue/worker.go:156-204 | the sum over unfinished messages of (4 - retries) strictly falls with every effective call |
| History.SendsBounded | internal/queue/worker.go:156-204 | a serial run of any length makes at most four sends per created message |
| History.NeverBounced | internal/queue/worker.go:160-203 | no interleaving gives a row the status bounced |
| Duplicates.OneWorkerAtMostOnce | internal/queue/worker.go:65-204 | with one worker, in every interleaving with handlers, sleepers and scheduler, a message gets at most four sends and at most one success, and while the worker is idle its row is the replay of its log |
| Duplicates.SentTwice | internal/queue/worker.go:94-168 | for any two or more workers and any limit, a run in which a message is sent twice and goes from sent back to sending |
| Duplicates.AtMostOnceIffOneWorker | internal/queue/worker.go:54-57 | whatever the limit, every run delivers each message at most once if and only if Start is given at most one worker |
| Duplicates.CrashCanLose | internal/queue/worker.go:94-99 | for any number of workers from one up, a run after which a crash and restart leave a message out of reach |
| Queue.DeliveryQueue.constructor | internal/queue/worker.go:25-32 | a new queue is the booted machine without workers |
| Queue.DeliveryQueue.Start | internal/queue/worker.go:40-63 | Start returns with the booted machine exactly if at most 10000 rows are recovered, and then they are in the channel in order |
| Queue.DeliveryQueue.Admit | internal/queue/worker.go:72-86 | after a reset that is due, the id is admitted exactly if there is no limit or the counter is below it, and otherwise parked |
| Queue.DeliveryQueue.Process | internal/queue/worker.go:71-204 | the method does to the whole state what the atomic process does |
| Queue.DeliveryQueue.Deliver | internal/queue/worker.go:156-204 | the row, event, suppression and counter changes after each outcome, spelled out: a success records the time, a temporary failure below three retries waits 5, 10 or 20 minutes, anything else fails |
| Queue.DeliveryQueue.Worker | internal/queue/worker.go:65-69 | the worker loop drains the channel by serial turns |
| Queue.DeliveryQueue.SchedulerTick | internal/queue/worker.go:206-216 | one tick pushes the selected rows in order while there is room, blocks exactly if they do not fit, keeps the rest in hand, and changes nothing else |
| Queue.DeliveryQueue.Enqueue | internal/queue/worker.go:35-37 | the id moves from its handler to the end of the channel |
| Recovery.BackoffsUsed | internal/queue/worker.go:169-178 | a deferral sets the retry time 5, 10 or 20 minutes ahead, for the first, second and third, and there is no fourth |
| Recovery.RetryIsNear | internal/queue/worker.go:169-178 | in every interleaving no retry time lies more than twenty minutes ahead |
| Sender.Send | internal/smtp/sender.go:26-68 | exchangers are tried in order up to the first that works, and for a well-formed recipient success means the last one tried does; a failure never carries an SMTP error |
| Sender.WhomSendDials | internal/smtp/sender.go:26-68 | without records the domain after the first at sign is dialled, otherwise each exchanger in turn without its final dot, and the call succeeds exactly if a dialogue with one of them goes smoothly |
| Sender.DialogueClassified | internal/smtp/sender.go:70-124 | a dialogue succeeds exactly if no stage fails, and its error carries a code only if the recipient or the end of data is the first to fail |
| Sender.CodeReads | internal/smtp/sender.go:138-152 | three digits at the head of a reply read as the number they write |
| Sender.NoCode | internal/smtp/sender.go:138-152 | a reply without three digits at its head reads as 0 |
| Sender.ParseCode | internal/smtp/sender.go:138-152 | the loop computes the three-digit reply code, or 0 |
| Sender.PermanentMeansFive | internal/smtp/sender.go:154-157 | permanent means a three-digit reply that starts with 5 |
| Sender.DeliveriesCounted | internal/smtp/sender.go:53-67 | the exchangers that hold the message after a call are those whose QUIT failed after they took it, and one more exactly if the call succeeded |
| Sender.FailsThoughDelivered | internal/smtp/sender.go:53-67 | the call fails although some exchanger holds the message if and only if none works and one took it and lost its QUIT |
| Sender.DeliveredTwice | internal/smtp/sender.go:53-67 | two exchangers or more hold the message after one call if and only if one tried took it and lost its QUIT and a later one tried took it too |
| Sender.TwoCopiesOneSuccess | internal/smtp/sender.go:53-67 | an input for which one successful call leaves two copies |
| Composition.SendHidesSmtpErrors | internal/smtp/sender.go:67 | the outcomes Send can produce for process are success and unclassified failure, and no other |
| Composition.OneAttemptAsWritten | internal/queue/worker.go:156-204 | composed with Send as written, in every interleaving: at most one attempt per message, retries 0, no retry time, no suppression |
| Base64.DecodeEncode | internal/smtp/message.go:210 | decoding undoes encoding |
| Base64.Standard | internal/smtp/message.go:210 | the alphabet is that of section 4 of RFC 4648 |
| Base64.Vectors | internal/smtp/message.go:210 | test vectors of section 10 of RFC 4648 |
| Base64.DecodeWrapped | internal/smtp/message.go:209-221 | decoding the wrapped text, skipping CR and LF, returns the bytes |
| Base64.Base64Wrap | internal/smtp/message.go:209-221 | the loop writes the lines of at most 76 characters, each followed by CRLF |
| Base64.ChunkLines | internal/smtp/message.go:212-218 | each line is non-empty, at most 76 characters and in the base64 alphabet |
| Base64.WrappedLength | internal/smtp/message.go:209-221 | the exact length L + 2 ceil(L / 76) with L = 4 ceil(n / 3) |
| Message.BuildMessage | internal/smtp/message.go:27-112 | the builder writes exactly the lines of the message, for any iteration order of the header map |
| Message.BuildBodyPart | internal/smtp/message.go:118-139 | the body part is a text leaf, or text and HTML as alternatives |
| Message.PutExtra | internal/smtp/message.go:71-78 | the extra headers that survive the key filter, stripped, in iteration order |
| HeaderBlock.HeaderIntegrity | internal/smtp/message.go:30-94 | for all names, addresses, subjects, header maps and attachments of any content type, the lines before the first empty one are the eight fixed fields, the surviving extra fields and the content fields, each non-empty without CR or LF |
| HeaderBlock.BoundariesDiffer | internal/smtp/message.go:168-172 | distinct random bytes give distinct boundaries of equal length |
| HeaderBlock.MessageOneLine | internal/smtp/message.go:27-139 | with content types of one line, every line the builder writes is one line |
| Mime.SplitInterleave | internal/smtp/message.go:92-108 | splitting at a boundary undoes interleaving whenever no part contains a delimiter line |
| Mime.UnquoteIff | internal/smtp/message.go:102-104 | a quoted name reads back as itself exactly if it holds no quote and no backslash |
| FieldReading.KeyDecides | internal/smtp/message.go:71-78 | a surviving extra header acts as the field of a given name exactly if its key is that name in any case |
| FieldReading.HeadReads | internal/smtp/message.go:30-78 | of the content type, encoding and disposition the head of a message says exactly what its surviving extra headers say, and its version is 1.0 beside theirs |
| FieldReading.FixedFieldOnce | internal/smtp/message.go:39-78 | each of the eight fixed fields stands exactly once in the header section if and only if no surviving extra header has its name in any case |
| HeaderValues.AddressesRead | internal/smtp/message.go:30-52 | a reader of any built message finds the stripped sender, with the encoded name if there is one, the stripped recipient and the encoded subject, each under its own field, and below them the extra headers of that name |
| HeaderValues.ServiceFieldsRead | internal/smtp/message.go:36-61 | the same for the date, the message id at the sender's domain and the version |
| HeaderValues.UnsubscribeRead | internal/smtp/message.go:65-67 | the same for the two unsubscribe fields |
| HeaderValues.ExtraSpells | internal/smtp/message.go:71-78 | an extra header counts under a name exactly if its stripped key is that name in any case, and is not empty and holds no colon, blank or tab; in the given order |
| HeaderValues.StripSpells | internal/smtp/message.go:144-146 | stripping removes each CR, LF and NUL and nothing else |
| FieldReading.MultipartReads | internal/smtp/message.go:92-122 | the multipart line reads back as its subtype and boundary |
| RoundTrip.LeafHasNoDelimiter | internal/smtp/message.go:96-108 | no line of a leaf can be a delimiter, for any bytes and any boundary |
| RoundTrip.OtherBoundary | internal/smtp/message.go:168-172 | delimiters of one boundary are not delimiters of another of the same length |
| RoundTrip.LeafDecodes | internal/smtp/message.go:120-137 | a leaf whose only encoding is base64 decodes to the bytes it was written from |
| FileParts.PartBytesBack | internal/smtp/message.go:96-107 | for every content type whatever, the bytes of a file part come back if and only if the lines the type turns into hold no empty line, no encoding and one content type, which is no multipart |
| FileParts.FileShows | internal/smtp/message.go:96-107 | the encoded name comes back as well if and only if moreover the type holds no disposition and the name needs no quoting |
| FileParts.OneLineTypeReadable | internal/smtp/message.go:98-103 | for a type of one line these conditions are that it is no multipart and that the encoded name holds no quote and no backslash |
| FileParts.TypeComesBack | internal/smtp/message.go:98-103 | a type of one line comes back as given, with the name beside it, and an empty one as application/octet-stream |
| RoundTrip.BodyReads | internal/smtp/message.go:118-139 | the body part shows the text, and the HTML only beside a non-empty text, under any header that names no type and no encoding unfit for it |
| ParseBack.ParsingUndoesBuilding | internal/smtp/message.go:27-139 | for all inputs, content types of any text included, reading what was built returns the caller's text (or, without one, the text derived from the HTML), the HTML and every file in order, its name Q-encoded, and no type holds the delimiter below a copy of its own part, if and only if: no extra header names the content type or version, an encoding (an identity on a multipart aside) or a disposition (inline aside); HTML comes with text; and every file meets the conditions of FileShows and holds no delimiter in its type |
| ParseBack.OverrideBreaks | internal/smtp/message.go:71-92 | with an extra Content-Type the message does not parse |
| ParseBack.SecondEncodingBreaks | internal/smtp/message.go:71-78 | an input that overrides no content type and fails: a second encoding on a plain text |
| Copies.CopySplits | internal/smtp/message.go:98-108 | a type that writes out its whole part and the closing delimiter yields the very parts of the honest message |
| Copies.CopyReads | internal/smtp/message.go:98-108 | such a message reads back whenever the honest one does, and its type holds the delimiter |
| FileParts.BlankLineInType | internal/smtp/message.go:98-103 | any content type with an empty line in it loses the bytes, whatever stands around that line |
| Send.Validate | internal/handlers/send.go:71-98 | a request passes exactly if it has at most ten files, each named, decodable and of at most ten megabytes, and at most fifteen megabytes in all; otherwise it gets the first reason |
| Send.LimitsAreReached | internal/handlers/send.go:52-56 | files of every size up to the limits are accepted, and none above them |
| Send.TenAreAccepted | internal/handlers/send.go:52-77 | ten files are accepted and eleven are not |
| Send.EncodedSizeBound | internal/handlers/send.go:52-98 | wrapped size is at most 78/57 of the decoded size plus ten characters per file |
| Send.AcceptedFitsTheEnvelope | internal/handlers/send.go:37-56 | the attachments of every accepted request stay below 21.6 million characters on the wire, under 25 MB |
| Send.DecodeStored | internal/queue/worker.go:124-145 | the worker's loop decodes the stored attachments in order and drops one exactly if some do not decode |
| Send.DecodedFaithful | internal/queue/worker.go:124-145 | after acceptance nothing is skipped and the i-th attachment holds the caller's i-th bytes |
| Send.DecodedSpells | internal/queue/worker.go:124-145 | each stored attachment yields its own bytes under its name and type, or nothing if it does not decode |
| Send.AttachmentFidelity | internal/queue/worker.go:124-154 | end to end, for every accepted request: a body taken for a raw message goes out as it is; otherwise a reader recovers each attachment's Q-encoded name and its bytes in place, exactly under the condition of ParsingUndoesBuilding |
| Send.RelayedVerbatim | internal/queue/worker.go:147-154 | a stored body goes out as it came if and only if it begins with From:, DKIM-, Received: or MIME-Version: |
| Send.RawDropsAttachments | internal/queue/worker.go:147-151 | what goes out is the same for all attachments if and only if the body is taken for a raw message |
| Scanner.ExtractHeader | internal/smtp/relay.go:208-219 | the loop returns the trimmed value of the first matching field of the header section, or nothing |
| Scanner.StopsAtBlank | internal/smtp/relay.go:214-216 | nothing after the first blank line influences the result |
| Scanner.FoundInAnyCase | internal/smtp/relay.go:208-213 | a field is found whatever the case of its name, if no line above it is blank or carries the name |
| Scanner.NothingCarried | internal/smtp/relay.go:214-219 | nothing is found if no line of the header section carries the name |
| Scanner.ScannerReadsSubject | internal/smtp/relay.go:208-219 | on any built message the scanner returns the encoded subject, trimmed |
| Scanner.TrimCuts | internal/smtp/relay.go:212 | trimming cuts all the space at both ends and nothing else |
| Scanner.SixSpaces | internal/smtp/relay.go:212 | six ASCII characters count as space |
| Hub.StreamsInOrder | internal/sse/hub.go:51-106 | for every stream of every run: received then buffered is an in-order subsequence of what was published for it, published = received + buffered + dropped, equal if nothing dropped, buffer at most 16 |
| Hub.OnlyOwnEvents | internal/sse/hub.go:87-97 | no stream sees an event of another user or its own excluded echo |
| Hub.RegistryIsExact | internal/sse/hub.go:58-71 | the registry has an entry for a user exactly while that user has an open stream |
| Hub.ConnIDInjective | internal/sse/hub.go:54-56 | connection ids are unique, so an exception names at most one stream |
| Hub.SnapshotGoesStale | internal/sse/hub.go:87-103 | a target unsubscribed between the snapshot and the send is a closed channel by then, so publish must be one step |
| Hub.EventHub.Subscribe | internal/sse/hub.go:51-62 | a new stream with an empty open channel, registered under its user |
| Hub.EventHub.Unsubscribe | internal/sse/hub.go:64-74 | the stream leaves the registry, an emptied entry is removed, the channel closes |
| Hub.EventHub.PublishExcept | internal/sse/hub.go:87-106 | the event reaches exactly the open streams of the user other than the excepted one whose buffer holds fewer than 16, at the end of the buffer, and nothing else changes |
| Hub.EventHub.Snapshot | internal/sse/hub.go:88-97 | the targets are exactly the user's streams other than the excepted one, each once |
| Badge.BadgeConverges | internal/handlers/notifications.go:253-358 | after every run the value a client shows plus the silently inserted rows it missed is the unread count, so it is right if and only if there are none |
| Badge.AnnouncedBadgeIsExact | internal/handlers/notifications.go:88-93 | without silent inserts, a stream that has its first count and lost no event shows the unread count |
| Badge.SilentBreaksTheBadge | internal/handlers/notifications.go:88-93 | an inserted notification keeps a right badge right if and only if in-app delivery announces it |
| Badge.RacingHandlersGoStale | internal/handlers/notifications.go:253-270 | two reads marked at once may leave every open stream one too high |
| Badge.StepGood | internal/handlers/notifications.go:45-358 | every handler step keeps every open stream in step with the table |
| Notifications.Service.ServiceNotify | internal/handlers/notifications.go:45-115 | a notification is inserted unless a field is missing, all channels are off or its kind is muted; it and the new count are published exactly if in-app delivery is on |
| Notifications.Service.SelfNotify | internal/handlers/notifications.go:135-209 | the same for a user's own notification, whatever channels are enabled, and with a default kind |
| Notifications.Service.AdminNotify | internal/handlers/admin_notifications.go:137-192 | a test notification is inserted and published whatever the preferences |
| Notifications.Service.MarkRead | internal/handlers/notifications.go:253-270 | 200 exactly for an unread row of the user, which becomes read while all others stay, with one publication of the new count; otherwise nothing changes |
| Notifications.Service.MarkAllRead | internal/handlers/notifications.go:272-284 | every row of the user becomes read, no other changes, and the count 0 is published |
| Notifications.Service.Delete | internal/handlers/notifications.go:286-300 | 200 exactly for a row of the user, which alone disappears, with one publication of the new count |
| Notifications.Service.Open | internal/handlers/notifications.go:328-329 | opening registers a fresh stream of the user and changes nothing else |
| Notifications.Service.ReadInitial | internal/handlers/notifications.go:335-338 | the first count a stream writes is the table's at that moment |
| Notifications.Service.PublishUnread | internal/handlers/notifications.go:682-691 | one publication to the user of how many of the user's rows are unread |
| Relay.SessionIsHistory | internal/smtp/relay.go:88-202 | after any verbs the session holds the latest successful credential, which reset keeps, and the sender and recipients accepted since the last reset |
| Relay.EveryQueuedIsAuthorised | internal/smtp/relay.go:88-193 | every queued message carries the user and key of the last AUTH that presented, in the right field, a known key not expired at that moment, a domain verified and owned by that user, the sender in force, and a recipient named since the last reset |
| Relay.HistorySpelled | internal/smtp/relay.go:127-141 | the sender is that of the last accepted MAIL since the last reset, and each recipient was named by an accepted RCPT since then |
| Relay.DataQueuesRecipients | internal/smtp/relay.go:143-193 | one DATA queues exactly the recipients since the last reset in order, or the prefix before a failing insert, and nothing without credential or domain |
| Relay.AfterLastAtIs | internal/smtp/relay.go:154-157 | the domain of the sender is what follows the last at sign, or all of it |
| Relay.RelaySession.Auth | internal/smtp/relay.go:88-125 | the exact condition for each answer: missing, unknown and expired key, and success, which alone sets the identity |
| Relay.RelaySession.Mail | internal/smtp/relay.go:127-133 | sets the sender of an authenticated session |
| Relay.RelaySession.Rcpt | internal/smtp/relay.go:135-141 | appends a recipient of an authenticated session |
| Relay.RelaySession.Data | internal/smtp/relay.go:143-193 | the outbox grows by the output of the verb, with the exact condition for each refusal and a reply that says how far it got |
| Relay.RelaySession.Reset | internal/smtp/relay.go:195-202 | clears the transaction and not the credential |
| Domains.ShortcutAgrees | internal/handlers/domains.go:219-239 | after an error-free setup of any zone all three verification tests succeed |
| Domains.SetupPublishes | internal/dns/cloudflare.go:82-101 | an error-free setup of any zone publishes the whole key with its tags, the policy naming the server and the include, and the report policy, each at its name |
| Domains.SecondRunOnlyUpdates | internal/dns/cloudflare.go:106-131 | a second run, whatever its calls do, finds each record and leaves the zone unchanged |
| Domains.RunKeepsTheRest | internal/dns/cloudflare.go:106-131 | a record survives in place exactly unless it is the first of one of the three slots, and then it becomes the wanted record |
| Domains.NamesDiffer | internal/dns/cloudflare.go:82-101 | the three record names are pairwise distinct for every domain and selector |
| Domains.Zone.SetupDomainRecords | internal/dns/cloudflare.go:76-134 | reports plus errors number three once a zone is found, errors are empty exactly if every call succeeded, and then the three records are published in full |
| Domains.Zone.Upserts | internal/dns/cloudflare.go:106-131 | each round adds a report exactly if its calls succeed, updated or created by whether the slot was taken, and otherwise the error that says what failed |
| Domains.FindZone | internal/dns/cloudflare.go:43-54 | the first candidate the provider knows, from the domain upwards, never a bare top label |
| Domains.CandidateIsParent | internal/dns/cloudflare.go:45-47 | each candidate is a parent of the domain |
| Domains.SendingDomain.Verify | internal/handlers/domains.go:101-137 | the three flags and the status from what the texts in the zone contain, and the exact condition for a panic |
| Domains.SendingDomain.AdminVerify | internal/handlers/admin.go:154-193 | the same on as much of the key as there is, without the panic |
| Domains.SendingDomain.AutoSetup | internal/handlers/domains.go:219-239 | the flags set without looking are those verification finds in the new zone |
| Domains.ShownRecordsPass | internal/handlers/domains.go:279-303 | a zone with the three shown records passes as well, though the shown policy is not the one setup writes |
| Tenants.ReportConserves | internal/handlers/admin.go:223-276 | the seven columns of the report sum to the global statistics on the same tables |
| Tenants.ReportIsDetermined | internal/handlers/admin.go:277-297 | the report is determined by the tables alone |
| Tenants.BeforeIsStrictTotal | internal/handlers/admin.go:282-297 | the comparator is a strict total order on entries of distinct users |
| Tenants.ReportOrder | internal/handlers/admin.go:282-297 | larger message counts come first, then later seconds of sending, then user ids in byte order |
| Tenants.EntriesAreRight | internal/handlers/admin.go:223-276 | every column of every entry counts the rows of that user, and the last time is the latest |
| Tenants.ListTenants | internal/handlers/admin.go:213-300 | for any row order and any map iteration order the output is the report: one right entry for each user of the three tables, sorted |
| Tenants.MergedIsRight | internal/handlers/admin.go:257-276 | merging the three aggregates gives the right entry for exactly the union of the users |
| Tenants.BouncedColumnIsZero | internal/handlers/admin.go:230 | the bounced column is zero after every run of the delivery queue |

## Left out

- HTTP, JSON, WebSocket and SSE writing, Cloudflare calls, DNS lookups, sockets and TLS: I/O; their answers are parameters.
- DKIM signing, key generation, key hashing, random bytes: opaque, or parameters.
- The regular expressions of the derived plain text, Q-encoding and address parsing: parameters of which only single-line output is used.
- Fairness and liveness: the scheduler's query has a limit and no order, so only deadlock freedom is stated.
- Error texts, the `error` column and log output.
- `SendEmail` and `ServiceSend` beyond attachments: suppression and domain lookup are one query each, and row creation is a step of the machine.
- The hub not being configured (`NotifHub == nil`) and a failing count query, in both of which nothing is published.
- Unsubscribing between the snapshot of targets and the sends of one publish, where a closed channel would be written to (`SnapshotGoesStale`); publish is one step.
- The wrap-around of the 64-bit connection counter.
- White space beyond ASCII and case folding beyond ASCII in the header scanner.
- Relay authentication other than PLAIN, which is refused before any state changes.
- `RemoveDomainRecords`, the list and preference endpoints, push drivers, OAuth, enrolment and configuration: short decisions.
- Tenants.ListTenants: an insertion sort stands for the library's sort, of which only a sorted permutation is used.
- STARTTLS as a stage of the dialogue: its failure is ignored.
- ParseBack.ParsingUndoesBuilding: the file name that comes back is the Q-encoded one; decoding it is the reader's.
- ParseBack.ParsingUndoesBuilding: a type that guesses the delimiter and holds a copy of its own part above it is set aside, because such a message reads back (`CopyReads`); boundaries are drawn after the request.
