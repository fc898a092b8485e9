# Livox driver model

A Dafny model of the algorithms of the Livox ROS driver on which its data and its safety evidence
depend, with proofs of what they keep over all inputs, runs and interleavings.

- **JSON text engine** (the vendored RapidJSON): `Utf8`, `JsonString`, `JsonNumber`, `JsonReader`
  (recursive descent), `JsonMachine` (the table-driven automaton), `JsonWriter`, `JsonRoundTrip`, `JsonTree`,
  `JsonPointer`, `UriFragment`, `JsonPointerParser`, `PointerTree`; the grammars that the readers are held against,
  `NumberText`, `StringText` and `JsonText`; the nesting of events, `JsonNesting`; and the layout of a tree that the
  writers are held against, `JsonLayout`.
- **Data path and crash-tolerant log**: `RecordQueue`, `Shutdown`, `CrashLog`, `LogRetention`, `Recorder`, `RowFates`,
  `StateRecord`, `RowContents`, `StateRows`, `RowEncoding` (the state recorder); `PubHandler`, `FrameGates`,
  `RingQueue`, `RingSteps`, `Account`, `Lds`, `Wakeup`, `Passes`, `Lddc` (points from packet to publisher).
- **Safety-evidence state machines**: `Monitor`, `Signals`, `Evidence`, `Judgement`, `Heartbeat`, `History`,
  `Readings`.

`Bytes`, `Digits`, `JsonEvents`, `Frames`, `Wrappers`, `Arithmetic` and `Doubles` hold what several of them share or
stand on.

Each component has a specification on values and, where the driver works step by step, a class or method with
the driver's own fields, loops and branches that is proved to compute it. Threads are interleaved steps of a
state machine, each step one access to shared state; operating-system calls are steps with an arbitrary answer.
Clocks, decoded points, lock acquisition and the answers of the operating system are inputs.

Where the code turned out to differ from what one would expect, the code is kept:

- The overflow test in the pointer parser misses an overflow exactly when the value has more than 32 bits and the
  low 32 bits of the number never decrease from digit to digit (`JsonPointer.IndexExactly`), as in 5000000000
  (`JsonPointer.IndexWraps`).
- A lidar that begins to sample while frames already wait, with no token pending and the publisher's pass already
  past it, is not looked at before the next push (`Wakeup.StartSamplingCanBeMissed`). `Wakeup.NoLostWakeup` says on
  the schedule that this is the only exception, and `Wakeup.StartingEmptyLosesNothing` what callbacks can do about it.
- After `Create` with `-` applied to an array, `Get` with the same pointer does not resolve
  (`PointerTree.GetAfterCreateExactly`).

## Model

| member | source | states |
|---|---|---|
| Utf8.DecodeAcceptsGrammar | 3rdparty/rapidjson/encodings.h:148-211 | Repeated decoding of a byte string succeeds exactly when it belongs to the grammar of section 4 of RFC 3629: no overlong forms, no surrogates, nothing above U+10FFFF |
| Utf8.DecodeSound | 3rdparty/rapidjson/encodings.h:148-211 | A successful decode has consumed exactly one character of the grammar, and encoding its scalar value gives back the bytes consumed |
| Utf8.DecodeComplete | 3rdparty/rapidjson/encodings.h:148-211 | Decoding accepts every character of the grammar, in any context, and stops right behind it |
| Utf8.DecodeEncode | 3rdparty/rapidjson/encodings.h:108-125 | Decoding undoes encoding of any scalar value, whatever stands around it |
| Utf8.EncodeDecodeAll | 3rdparty/rapidjson/encodings.h:108-211 | Over whole well-formed strings: encoding the decoded scalar values restores the bytes |
| Utf8.DecodeEncodeAll | 3rdparty/rapidjson/encodings.h:108-211 | Over whole lists of scalar values: decoding their encoding restores them |
| Utf8.Classes | 3rdparty/rapidjson/encodings.h:269-298 | Which bytes the packed masks of the character-class table select |
| Utf8.DecodeStream | 3rdparty/rapidjson/encodings.h:148-211 | The decoder as it consumes a stream computes the specified verdict, code point and position |
| Utf8.Validate | 3rdparty/rapidjson/encodings.h:214-266 | Validation gives the verdict of decoding and copies exactly the bytes it consumes |
| JsonString.StringRoundTrip | 3rdparty/rapidjson/writer.h:437-520 | For every byte string, zero and non-ASCII bytes included, and any suffix, the reader gets the bytes back from the printed literal and stops right behind its closing quote |
| JsonString.AsciiRoundTrip | 3rdparty/rapidjson/writer.h:437-520 | With an ASCII target the same holds for every well-formed UTF-8 string, through four-digit escapes and surrogate pairs |
| JsonString.EscapeAsciiDefined | 3rdparty/rapidjson/writer.h:467-494 | Printing for an ASCII target succeeds on every well-formed UTF-8 string |
| JsonString.EscapeIsPrintable | 3rdparty/rapidjson/writer.h:437-520 | The printed literal contains no control character |
| JsonString.ParseHex4 | 3rdparty/rapidjson/reader.h:967-987 | The four-digit loop yields the value of the digits or fails at the first other character |
| JsonString.ParseStringToStream | 3rdparty/rapidjson/reader.h:1058-1129 | The parsing loop over a literal consumes and produces what the specification of string literals says, or reports its error |
| JsonString.WriteString | 3rdparty/rapidjson/writer.h:437-520 | The printing loop appends exactly the escaped literal |
| JsonString.WriteStringAscii | 3rdparty/rapidjson/writer.h:437-520 | The printing loop for an ASCII target appends exactly the escaped literal, or fails when a character cannot be decoded |
| StringText.StringExactly | 3rdparty/rapidjson/reader.h:1058-1129 | Exactly the string literals of section 7 of RFC 8259 are read, each to its closing quote and as the bytes it means: every one-letter escape, four hexadecimal digits in either case, surrogate pairs, and everything else as it stands |
| StringText.PrintedIsShortest | 3rdparty/rapidjson/writer.h:437-520 | Of all literals that mean the same bytes, the writer prints a shortest one |
| JsonNumber.ParseInteger | 3rdparty/rapidjson/reader.h:1598-1701 | The accumulators never leave their types, and the magnitude is exact and classified by the bounds 2^32-1, 2^31, 2^64-1 and 2^63 |
| JsonNumber.ParseNumber | 3rdparty/rapidjson/reader.h:1584-1864 | The number parser consumes, emits and fails as the specification of a number says, whose literals and events NumberText.NumberExactly gives |
| JsonNumber.Overrun | 3rdparty/rapidjson/reader.h:1612-1699 | A digit string that has outgrown the accumulator stays out of range with every further digit |
| JsonNumber.ReadDecimal | 3rdparty/rapidjson/writer.h:367-401 | Every printed 64-bit integer is read back with its value, as the narrowest event that fits |
| NumberText.NumberExactly | 3rdparty/rapidjson/reader.h:1584-1864 | A number is read up to a position exactly when a literal, an optional minus, an integer part and optional fraction and exponent, stands there and what follows does not continue it; an integer in range becomes Uint, Uint64, Int or Int64 with its value, every other literal a Double carrying exactly its text, sign included, unless it is too big for a double |
| JsonReader.Reader.ParseValue | 3rdparty/rapidjson/reader.h:1871-1896 | The recursive-descent parser consumes, emits and fails as the specification of a value says |
| JsonReader.Reader.ParseObject | 3rdparty/rapidjson/reader.h:797-867 | Members, separators, trailing commas and the member count of an object |
| JsonReader.Reader.ParseArray | 3rdparty/rapidjson/reader.h:869-913 | Elements, separators, trailing commas and the element count of an array |
| JsonReader.Reader.Parse | 3rdparty/rapidjson/reader.h:614-646 | A whole document: the events, also those before an error, and the position |
| JsonMachine.ParsersAgree | 3rdparty/rapidjson/reader.h:2400-2433 | For every NUL-terminated input and every setting of the flags, the table-driven automaton accepts exactly what recursive descent accepts, ends at the same position and emits the same events with the same counts, also before an error |
| JsonMachine.MembersAgree | 3rdparty/rapidjson/reader.h:2012-2350 | From a member on, running the automaton is reading the rest of the object and then going on |
| JsonMachine.ElementsAgree | 3rdparty/rapidjson/reader.h:2012-2350 | From an element on, running the automaton is reading the rest of the array and then going on |
| JsonMachine.IterativeReader.IterativeParse | 3rdparty/rapidjson/reader.h:2400-2433 | The loop with the explicit stack does what recursive descent specifies |
| JsonText.ValueExactly | 3rdparty/rapidjson/reader.h:1871-1896 | A value is read up to a position exactly when a syntax tree of RFC 8259 is spelled there, white space included and with trailing commas only where the flag allows them, and the events are those of the tree |
| JsonText.DocumentExactly | 3rdparty/rapidjson/reader.h:614-646 | Both parsers accept exactly the documents of the grammar, stop where they end, and emit the events of their syntax trees with 32-bit counts |
| JsonNesting.EventsNest | 3rdparty/rapidjson/reader.h:797-913 | Whatever the input is, well-formed or not, both parsers send a handler events that nest properly, up to the error if there is one, and nothing is left open behind a document read to its end |
| JsonRoundTrip.ReadingUndoesWriting | 3rdparty/rapidjson/writer.h:200-297 | For every well-nested trace and every legal format, compact or pretty, both parsers accept the printed text to its end and give the same trace back with the right counts |
| JsonRoundTrip.SeparatorStep | 3rdparty/rapidjson/prettywriter.h:263-303 | The separators and white space in front of any value or name bring the parser exactly in front of it |
| JsonRoundTrip.EventStep | 3rdparty/rapidjson/writer.h:560-579 | What is printed for one event takes the parser through exactly that event |
| JsonTree.TreeRoundTrip | 3rdparty/rapidjson/writer.h:200-297 | Every JSON tree, printed in any legal format, is read back by both parsers as its own events |
| JsonLayout.WrittenIsLayout | 3rdparty/rapidjson/prettywriter.h:180-303 | For every tree and format the writer's level stack and value counts put exactly the layout defined by recursion over the tree: commas between items, colons behind names, every item on its own line at its depth, or one line for an array |
| JsonWriter.Writer.Prefix | 3rdparty/rapidjson/writer.h:560-579 | Commas, colons and the value count in front of a value |
| JsonWriter.Writer.PutPretty | 3rdparty/rapidjson/prettywriter.h:263-303 | The line breaks and indentation in front of a value |
| JsonWriter.Writer.End | 3rdparty/rapidjson/prettywriter.h:180-233 | Closing an object or array, with the line break before a bracket that closes a non-empty level |
| JsonWriter.Writer.Handle | 3rdparty/rapidjson/writer.h:200-297 | One event puts exactly its text and leaves the specified level stack |
| JsonWriter.Writer.HandleAll | 3rdparty/rapidjson/writer.h:200-297 | A whole trace puts exactly the specified text |
| JsonPointer.StringifyRoundTrip | 3rdparty/rapidjson/pointer.h:1150-1180 | Whenever printing succeeds, in either form, parsing its text gives back the same names, byte for byte, with indexes recomputed from them |
| JsonPointer.PlainRoundTrip | 3rdparty/rapidjson/pointer.h:1150-1180 | In the plain form every list of names, of any bytes, is printed and makes the round trip |
| JsonPointer.UriRoundTrip | 3rdparty/rapidjson/pointer.h:1150-1180 | In the URI fragment form exactly the lists of well-formed UTF-8 names are printed, and they make the round trip |
| JsonPointer.PlainTextUnique | 3rdparty/rapidjson/pointer.h:1013-1142 | In the plain form printing what was parsed gives the very text back |
| JsonPointer.PlainParsesExactly | 3rdparty/rapidjson/pointer.h:1013-1142 | In the plain form exactly the empty text and the texts that begin with '/' and use '~' only in ~0 and ~1 are pointers (section 3 of RFC 6901) |
| JsonPointer.ParsedSizes | 3rdparty/rapidjson/pointer.h:1020-1030 | A parsed pointer has as many tokens as its text has '/', and its names with their terminators fit into a buffer of the text's length |
| UriFragment.FragmentParsesExactly | 3rdparty/rapidjson/pointer.h:1013-1142 | In the URI fragment form exactly '#' alone and '#/' followed by '/', unreserved characters, percent-encoded UTF-8 characters and ~0 and ~1 are pointers, where the '~' may be percent-encoded but not the digit |
| JsonPointer.IndexExactly | 3rdparty/rapidjson/pointer.h:1105-1128 | The index of a numeric name is the low 32 bits of its value if these never decrease from digit to digit, and no index otherwise: so an overflow is missed exactly when the value has more than 32 bits and they never decrease |
| JsonPointer.SmallIndexIsRight | 3rdparty/rapidjson/pointer.h:1105-1128 | For every value of at most 32 bits they never decrease, and the index is the value |
| JsonPointer.IndexWraps | 3rdparty/rapidjson/pointer.h:1113-1126 | An overflow that the test misses: 5000000000 becomes 705032704 |
| JsonPointerParser.PercentDecodeStream.Take | 3rdparty/rapidjson/pointer.h:1199-1222 | Each call delivers the next percent-encoded byte, or makes the stream invalid |
| JsonPointerParser.Validate | 3rdparty/rapidjson/encodings.h:214-266 | Validation over percent-encoded bytes gives the verdict of decoding, and what it puts stays within the name buffer even when it fails |
| JsonPointerParser.ReadNameInto | 3rdparty/rapidjson/pointer.h:1050-1104 | The inner loop puts a token's name into the buffer in place, or stops at the specified error and offset |
| JsonPointerParser.ConvertName | 3rdparty/rapidjson/pointer.h:1105-1128 | The conversion loop computes the specified index |
| JsonPointerParser.Pointer.Parse | 3rdparty/rapidjson/pointer.h:1013-1142 | The one-pass parser with all names in one buffer of the source's length yields the specified tokens or the specified error, with every write within the buffer |
| JsonPointerParser.Stringify | 3rdparty/rapidjson/pointer.h:1150-1180 | The printing loops put exactly the specified text, or fail exactly when it is not defined |
| PointerTree.GetLoop | 3rdparty/rapidjson/pointer.h:622-649 | The loop resolves a pointer to the specified value, or names the token at which it stops |
| PointerTree.CreateExistsExactly | 3rdparty/rapidjson/pointer.h:539-585 | Create reports that everything existed exactly when Get would have resolved the pointer before |
| PointerTree.CreateKeepsExisting | 3rdparty/rapidjson/pointer.h:539-585 | In that case it leaves the tree unchanged and returns the value Get finds |
| PointerTree.CreatedIsFound | 3rdparty/rapidjson/pointer.h:539-585 | After Create, Get finds the created node where Create has put it, with each '-' in an array replaced by the new element's index |
| PointerTree.GetAfterCreateExactly | 3rdparty/rapidjson/pointer.h:539-649 | After Create, Get resolves the same pointer exactly when no '-' was applied to an array, and then finds the created node |
| PointerTree.CreateKeepsScalars | 3rdparty/rapidjson/pointer.h:539-585 | Unless Create changes the type of an existing value on its way, every scalar of the tree stays where it was |
| PointerTree.ParsedAreConsistent | 3rdparty/rapidjson/pointer.h:1105-1128 | In every parsed token '-' is no index, which the laws above ask for |
| RecordQueue.RunAccounted | src/lidar_state_recorder.cpp:161-187 | Over any run: pushes = accepted + dropped + suppressed, accepted rows = handed out followed by waiting, in order, numbered 1, 2, 3, ... without gaps |
| RecordQueue.AcceptedExactly | src/lidar_state_recorder.cpp:162-179 | A row is accepted exactly when the lock is free, the queue is open and has room, and a filtered state push differs from the last accepted one and comes at least 200 ms after it |
| RecordQueue.AcceptedRow | src/lidar_state_recorder.cpp:162-185 | What is accepted is the row that was pushed, with every field, the time of the push if it had none, and the next number; nothing else changes what was accepted |
| RecordQueue.SuppressedRepeats | src/lidar_state_recorder.cpp:167-170 | A row is counted as suppressed exactly when it repeats the last accepted push |
| RecordQueue.RunSpaced | src/lidar_state_recorder.cpp:167-177 | Over any run of filtered pushes, accepted state pushes are at least 200 ms apart |
| RecordQueue.RateLimit | src/lidar_state_recorder.cpp:167-177 | Hence at most window / 200 ms + 1 of them fit into any window |
| RecordQueue.RecordQueue.Push | src/lidar_state_recorder.cpp:162-179 | The ring with head and size does what the bounded queue specifies, never blocking |
| RecordQueue.RecordQueue.Pop | src/lidar_state_recorder.cpp:180-185 | The oldest row is taken out, wherever the ring has wrapped |
| RecordQueue.RecordQueue.NextSequence | src/lidar_state_recorder.cpp:186-186 | The next number is given out and nothing else changes |
| RecordQueue.RecordQueue.Close | src/lidar_state_recorder.cpp:187-187 | A closed queue rejects rows and keeps those it has |
| Shutdown.WrittenInOrder | src/lidar_state_recorder.cpp:203-229 | In every interleaving: not accepting implies closed, and the rows handed to Write are the oldest accepted rows, each once, in order |
| Shutdown.DrainedAtEnd | src/lidar_state_recorder.cpp:343-361 | When the writer is done, every accepted row was handed over exactly once in order, and then one shutdown row with the greatest number |
| Shutdown.WriterTerminates | src/lidar_state_recorder.cpp:343-361 | Once accepting is cleared, the writer's remaining steps are bounded whatever the other threads still do |
| Shutdown.WriterProgresses | src/lidar_state_recorder.cpp:343-361 | Until it is done the writer can always step, and once accepting is cleared each step brings it closer to the end |
| Shutdown.RowsReachWrite | src/lidar_state_recorder.cpp:343-361 | While the recorder accepts as well as while it stops: from every state reached, whatever the other threads do, two steps of the writer for each waiting row and two more hand every row accepted so far to Write, in order |
| CrashLog.CrashTolerant | src/lidar_state_recorder.cpp:286-333 | Under any mix of short writes, failed calls and deaths, and for any files found at the start: the files from oldest to current are a suffix, in order, of the bytes written; every file the recorder wrote is whole rows and at most one torn row at its very end, and no longer than file_bytes |
| CrashLog.StepKeeps | src/lidar_state_recorder.cpp:286-333 | Every single call, answered in any way, and every death keeps the log's invariant |
| CrashLog.RenamedJoined | src/lidar_state_recorder.cpp:304-311 | The place a file is renamed to is free, so rotation moves no byte and loses none but the oldest file's |
| CrashLog.ReaderSeesWholeRows | src/lidar_state_recorder.cpp:298-301 | Splitting such a file at its newlines gives exactly its whole rows; a torn row is what is left behind the last newline |
| LogRetention.RotatesExactly | src/lidar_state_recorder.cpp:291-333 | A rotation begins exactly when a row that is within the limit does not fit behind the open file, or when a file with bytes in it is opened |
| LogRetention.RemovesExactly | src/lidar_state_recorder.cpp:304-311 | Bytes are given up only with the oldest of the four files, and exactly when a rotation removes it |
| LogRetention.KeepsFullFiles | src/lidar_state_recorder.cpp:286-333 | From an empty directory, while nothing fails: no file but the newest had room for the first row of the next one, and once anything was given up at least three files have rows in them |
| RowFates.WholeOrCounted | src/lidar_state_recorder.cpp:286-333 | As long as the process lives, whatever calls fail or write only a part: what a run adds to the log is, in order, a part of every row from its beginning, and as many errors are counted as rows are short |
| RowFates.AcceptedWrittenOrCounted | src/lidar_state_recorder.cpp:319-361 | From producer to file, when the writer is done: every row the queue accepted and the shutdown row behind them are whole in what was written, or short and counted as an error |
| StateRecord.CallsFormTheValue | src/lidar_state_recorder.cpp:232-285 | For every record: the calls Serialize makes form one JSON value, and the reader gets the events of the record's value, with its counts, from their text |
| RowContents.RowSaysIdentity | src/lidar_state_recorder.cpp:232-239 | Read back by member name, every row has its schema and kind, its wall and monotonic times, its number and its process id, each exactly once |
| RowContents.RowSaysOrigin | src/lidar_state_recorder.cpp:240-246 | Read back by name: the session, role, handle and address, the source and the result by their words, the SDK status and return code or null, and the detail |
| RowContents.RowSaysTotals | src/lidar_state_recorder.cpp:278-283 | Read back by name: the unit, every counter under its own name, and the writer's scheduling |
| RowContents.RowSaysTables | src/lidar_state_recorder.cpp:247-277 | Read back by name: the tables of values, statuses and sources |
| RowContents.RowSaysStatus | src/lidar_state_recorder.cpp:269-277 | Every field has the word for its status, and the row's source exactly where a measurement came with the row |
| RowContents.RowSaysField | src/lidar_state_recorder.cpp:247-268 | Every valid field is told under its name with its value, and null stands under the name of every other one |
| StateRows.Serialize | src/lidar_state_recorder.cpp:232-285 | The calls on a writer, and the newline, put the row of the record |
| StateRows.SerializedIsRow | src/lidar_state_recorder.cpp:232-285 | For every record the row has one newline, its last byte, and no other control character, whatever its strings contain |
| StateRows.ReaderRecoversRows | src/lidar_state_recorder.cpp:232-333 | After any crash, splitting a file at its newlines and parsing each line gives, for every record but a torn last one, the record's value |
| StateRows.ScriptSplitsAtRows | scripts/diagnose_lidar.py:233-242 | The script's splitting at LF, CR and CR LF finds exactly the same whole rows, and the torn one as the only line without a newline |
| RowEncoding.RowIsUtf8 | src/lidar_state_recorder.cpp:232-285 | A row is well-formed UTF-8 if the texts in its record are |
| Recorder.Recorder.Rotate | src/lidar_state_recorder.cpp:304-318 | Rotation takes the log's steps; on success every file has moved on by one place and an empty current file is open |
| Recorder.Recorder.Open | src/lidar_state_recorder.cpp:291-303 | Opening rotates a file that another process or a failed call left non-empty |
| Recorder.Recorder.Append | src/lidar_state_recorder.cpp:324-330 | The loop over short and interrupted writes puts the row behind the current file's bytes |
| Recorder.Recorder.Write | src/lidar_state_recorder.cpp:319-333 | On success the row is at the end of the current file, or alone in a fresh one when it did not fit |
| Recorder.Recorder.Log | src/lidar_state_recorder.cpp:286-333 | Whether calls succeed, fail or end with the process dying, a row takes exactly the log's steps, keeps its invariant, and is written whole or counted as an error |
| Recorder.SucceedsWhenCallsDo | src/lidar_state_recorder.cpp:291-333 | When every call succeeds, at most ten of them write the row and no error is counted |
| RingQueue.IsPowerOf2Exactly | src/comm/ldq.h:35-37 | The bit test holds exactly for the powers of two |
| RingQueue.RoundupPowerOf2 | src/comm/ldq.h:39-49 | The least power of two that is not below the size, for sizes up to 2^31; 2^31 above |
| RingQueue.MaskedIndex | src/comm/ldq.cpp:96-97 | Masking the 32-bit index selects the slot of the unbounded count modulo the size, across every wrap |
| RingQueue.UsedSize | src/comm/ldq.cpp:120-122 | The difference of the wrapped indices is the number of frames |
| RingQueue.LidarDataQueue.InitQueue | src/comm/ldq.cpp:33-61 | An initialised queue is empty and has room for the least sufficient power of two |
| RingQueue.LidarDataQueue.IsFull | src/comm/ldq.cpp:128-130 | The test holds exactly when the queue holds as many frames as it has slots |
| RingQueue.LidarDataQueue.IsEmpty | src/comm/ldq.cpp:132-134 | The test holds exactly when the queue holds no frame |
| RingQueue.LidarDataQueue.Used | src/comm/ldq.cpp:120-122 | The number of frames held |
| RingQueue.LidarDataQueue.PrePop | src/comm/ldq.cpp:86-105 | The oldest frame is copied out, and nothing changes |
| RingQueue.LidarDataQueue.Pop | src/comm/ldq.cpp:107-118 | The oldest frame is taken from the first-in first-out contents |
| RingQueue.LidarDataQueue.PushAny | src/comm/ldq.cpp:136-148 | A frame is appended to the contents of a queue that is not full |
| RingSteps.TakenInOrder | src/comm/ldq.cpp:86-148 | In every interleaving of single stores and loads, across 32-bit wraparound, the consumer's frames are a prefix of the producer's whole frames, at most a ring's size behind |
| RingSteps.WriteCellIsFree | src/comm/ldq.cpp:136-148 | The slot being written is never one the consumer may read |
| RingSteps.LossIsAccounted | src/lds.cpp:172-199 | In every interleaving of single steps: what was taken is the beginning of what entered the ring, and what entered is every frame offered but exactly those that came when the frames entered and not yet taken filled the ring |
| RingSteps.ChecksAreExact | src/lds.cpp:180-199 | A frame is turned away only from a full ring, and the consumer sees a frame exactly when there is one |
| Wakeup.NoLostWakeup | src/lds.cpp:186-198 | In every interleaving the semaphore counts 0 or 1, and with the producer idle a sampling lidar with frames has a token pending or the consumer's pass still ahead of it, except exactly when the schedule has a late start: the callback let the lidar begin to sample with frames waiting, no token pending and the pass already behind it, and no token was given after that step |
| Wakeup.StartingEmptyLosesNothing | src/lds.cpp:186-198 | If every lidar begins to sample with its queue empty, no wakeup is lost in any interleaving |
| Wakeup.StartSamplingCanBeMissed | src/lddc.cpp:130-139 | The exception is real: frames skipped before sampling began wait until the next push |
| Wakeup.StepKeeps | src/comm/semaphore.cpp:29-40 | Every step of the packet thread, the publisher thread and a callback keeps the wakeup invariant |
| Lddc.PublishFrames | src/lddc.cpp:204-236 | Draining publishes the waiting frames that have points, in order, and leaves the queue empty |
| Passes.PassesEmptyQueues | src/lddc.cpp:130-236 | With the packet thread idle, from any state reached, the publisher takes a bounded number of steps and then waits with the queue of every sampling lidar empty, unless that lidar began to sample late |
| Monitor.Monitor.ObserveTimeSync | src/lidar_dtc_monitor.h:92-131 | A sample updates both proofs as specified, with the clock distance taken in doubles, and nothing else |
| Monitor.FollowsExactly | src/lidar_dtc_monitor.h:96-102 | The clock test in doubles is the exact one as long as both clocks have run at most 2^53 ns, about 104 days, between two samples, and at most 2048 ns off on all 64-bit distances |
| Doubles.RoundedBound | src/lidar_dtc_monitor.h:98-102 | Rounding the difference decides no comparison with the bound |
| Monitor.Monitor.ObserveHms | src/lidar_dtc_monitor.h:79-85 | An alarm report replaces the previous one and is counted modulo 2^32 |
| Monitor.Monitor.ObserveWorkState | src/lidar_dtc_monitor.h:86-91 | A work state replaces the previous one |
| Monitor.Monitor.ObservePacket | src/lidar_dtc_monitor.h:132-136 | A packet's time is noted |
| Monitor.Monitor.ObserveCloud | src/lidar_dtc_monitor.h:138-145 | Only a cloud with enough points and a newer stamp counts as progress |
| Monitor.Monitor.Evaluate | src/lidar_dtc_monitor.h:147-204 | The loops and branches over the alarms report exactly the assessment of the evidence held, which the Judgement rows characterise on the observations |
| Signals.CategoryIds | src/lidar_dtc_monitor.h:35-49 | An alarm id belongs to a category exactly when it is in that category's set of ids, the eleven sets being given outright, and to none otherwise |
| Signals.IdsAreDisjoint | src/lidar_dtc_monitor.h:35-49 | No alarm id is in two of the eleven sets |
| Judgement.ConditionsExactly | src/lidar_dtc_monitor.h:158-182 | A condition is unknown exactly without a recent alarm report, and failed exactly when the newest report is recent and has an alarm with an id of that category that no proven PTP masks |
| Judgement.MaskedExactly | src/lidar_dtc_monitor.h:176-181 | A time alarm is kept out of the time condition exactly when it is a level-2 GPS or PPS warning and PTP is proven |
| Judgement.UnusableExactly | src/lidar_dtc_monitor.h:183-195 | Unusable is judged exactly on a recent fatal alarm, a recent error state, clouds or packets that stay away after they have come or should have, or another state than sampling once the time to start is over |
| Judgement.UsabilityExactly | src/lidar_dtc_monitor.h:183-195 | Usable is judged, by the branches in the driver's order, exactly when the newest evidence of all four kinds is recent and normal |
| Judgement.WarningExactly | src/lidar_dtc_monitor.h:198-203 | The report's bounded warning is set exactly when the newest alarms are advisory, everything else is normal and the timing is proven, all said of the observations |
| Judgement.HmsExactly | src/lidar_dtc_monitor.h:147-155 | The number of alarm reports modulo 2^32, and the age of the newest one in microseconds, zero if it lies ahead and the largest number if there was none |
| Judgement.TimingExactly | src/lidar_dtc_monitor.h:147-155 | The offset is that of the newest sample; the age of the timing evidence is that of the newest advance in an unbroken run with two, and the largest number without such a run |
| Monitor.WarningsAreTime | src/lidar_dtc_monitor.h:35-49 | Everything that may be masked or be advisory is an alarm about time |
| Evidence.BoundedWarningExactly | src/lidar_dtc_monitor.h:147-204 | The bounded timing warning is reported exactly when the newest alarms are recent and contain the level-2 accuracy warning and nothing unrecognised or otherwise wrong about time, the lidar is usable, and the timing is proven |
| Evidence.TimingEvidence | src/lidar_dtc_monitor.h:92-114 | The timing is proven exactly when the samples end in an unbroken run of bounded, clock-continuous samples with at least two strict advances of the sync time, the newest advance recent |
| Evidence.UsableExactly | src/lidar_dtc_monitor.h:183-197 | Usable is judged exactly when the newest strictly newer cloud, packet, alarm report and work state are all recent and normal |
| Evidence.HealthyPtpExactly | src/lidar_dtc_monitor.h:115-130 | PTP counts as healthy exactly when a healthy sample with a strictly new maximum lies within the timeout and every later sample has been healthy and has repeated it |
| Evidence.LastSyncIsMaximum | src/lidar_dtc_monitor.h:124-129 | The remembered sync time is the maximum over all healthy samples, and its time stamp that of the sample which first reached it |
| Evidence.ValidStampIsMaximum | src/lidar_dtc_monitor.h:138-145 | The remembered cloud stamp is the maximum over all clouds with enough points |
| Evidence.FrozenPtpStaysOld | src/lidar_dtc_monitor.h:123-129 | Whatever samples follow, without a newer sync time PTP is never proven afterwards unless it was proven before |
| History.ObservedChangeExactly | scripts/diagnose_lidar.py:371-402 | An observed change is reported exactly between successive valid observations that differ, with their values and their evidence |
| History.FirstObservationExactly | scripts/diagnose_lidar.py:386-394 | A value is reported as first observed, or as observed after a gap, exactly when no earlier observation can be linked to it; as first exactly when there is none at all |
| History.LinkedIsContiguous | scripts/diagnose_lidar.py:342-369 | Linked rows have consecutive numbers, one process, one barrier and unchanged loss counters |
| History.GapExactly | scripts/diagnose_lidar.py:342-369 | A gap is found exactly when two neighbouring rows do not follow on each other |
| History.ObservedChangeEvidence | scripts/diagnose_lidar.py:284-409 | For the grouped and sorted rows of any session of the stored lines: an observed change joins rows of one process with consecutive numbers and no lost or failed row between them, both rows are stored, and no unreadable line lies between them in the files |
| History.ReplayRebuilds | scripts/diagnose_lidar.py:332-409 | Replaying the transitions, forgetting at gaps and invalid reads, rebuilds the last values of every key |
| History.FoldSession | scripts/diagnose_lidar.py:334-409 | The loop over a session's rows produces exactly the specified transitions, gaps, last values and error flag |
| Readings.JoinedChange | scripts/diagnose_lidar.py:371-402 | On raw readings: between rows that nothing separates a change is reported exactly when the numbers differ or a non-zero code is listed in only one of them, and what is reported are those very numbers or codes |
| Readings.FreshReading | scripts/diagnose_lidar.py:386-394 | A reading that nothing joins to an earlier one is reported as it is: as the first if there was none before, else as the first after a gap |
| Readings.FirstGapExactly | scripts/diagnose_lidar.py:357-369 | The first row of a session begins with a gap exactly unless both loss counters are there and zero |
| Readings.ContinuousExactly | scripts/diagnose_lidar.py:342-409 | A transition is marked continuous exactly when its row follows on the row before it, and transitions stand in the order of their rows |
| Readings.ErrorExactly | scripts/diagnose_lidar.py:387-394 | The error flag is set exactly by a reading that nothing joins to an earlier one and that is the error state or lists a non-zero code of level 3 or 4 |
| History.Group | scripts/diagnose_lidar.py:284-331 | The loop over the lines groups rows by session, each with the number of unreadable lines before it |
| History.BarrierExactly | scripts/diagnose_lidar.py:284-295 | Equal barriers mean that no unreadable line lies in between |
| History.SortRowsSorts | scripts/diagnose_lidar.py:333-333 | The fold sees all rows of the session ordered by number and time |
| History.SortRowsIsStable | scripts/diagnose_lidar.py:333-333 | Rows with the same number and time stay in the order in which they were stored |
| PubHandler.PointsConserved | src/comm/pub_handler.cpp:172-271 | Under any order of packets, any switching of the sync mode and any clock, the points delivered for a lidar followed by those buffered are its decoded points in order |
| PubHandler.FramesOk | src/comm/pub_handler.cpp:172-236 | Every published packet has points and carries the time of its first one; a frame holds each lidar at most once |
| PubHandler.SyncFrame | src/comm/pub_handler.cpp:174-205 | With time synchronisation a frame holds just the packet's lidar, ends at a multiple of the interval and spans at least the tolerance, and leaves the other lidars alone |
| PubHandler.HostPace | src/comm/pub_handler.cpp:206-236 | Without it the host timer stands at its first look plus one interval for each frame published: no drift |
| FrameGates.SyncExactly | src/comm/pub_handler.cpp:175-185 | With time synchronisation a frame is published exactly when the time of the last point gathered, in milliseconds, is a non-zero multiple of the interval and the points span at least the tolerance, modulo 2^64 |
| FrameGates.HostExactly | src/comm/pub_handler.cpp:205-219 | Without it a frame is published exactly when this is not the first look and an interval has passed since the last frame was due |
| FrameGates.FrameHolds | src/comm/pub_handler.cpp:172-236 | A frame holds all points gathered for the packet's lidar, or for every lidar without time synchronisation, in order; what is in it leaves the buffer and everything else stays |
| PubHandler.PubHandler.CheckTimer | src/comm/pub_handler.cpp:172-239 | The method with its frame arrays publishes exactly the specified frame, each lidar's entry within the 32 places |
| PubHandler.PubHandler.RawDataProcess | src/comm/pub_handler.cpp:241-271 | The loop over the packets publishes exactly the specified frames |
| Lds.EndToEnd | src/lds.cpp:150-199 | From packet to publisher: offered frames and buffer together are the decoded points in order; taken and waiting frames are the offered ones without those lost, and a frame was lost exactly when the ring was full |
| Lds.EndToEndInterleaved | src/lds.cpp:150-199 | The same with the two threads interleaved step by step, at every moment: the points of the frames offered, of those due and of the buffer are the decoded points in order, and the frames taken and lost are accounted for |
| Lds.RunKeeps | src/lds.cpp:172-199 | Every ring keeps that account over any run of storing and taking |
| Lds.Lds.PushLidarData | src/lds.cpp:172-199 | On the real rings, made on first use: the frame is appended if there is room, every other queue is unchanged, and the semaphore's count is at least one afterwards |
| Lds.Lds.StoragePointData | src/lds.cpp:150-170 | The loop over a frame stores each known lidar's part in that lidar's ring |
| Heartbeat.ActiveExactly | src/functional_safety_heartbeat.cpp:67-74 | Over any run of snapshots, for each of the nine categories other than the two histories: the fault is active exactly when some snapshot of that lidar reported its failure and none since has reported a pass |
| Heartbeat.HistoryNeverActive | src/lidar_dtc_reporting.h:27-39 | History categories never become active faults |
| Heartbeat.OnlyCodesActive | src/lidar_dtc_reporting.h:27-39 | Nothing but the codes of current categories ever becomes an active fault |
| Heartbeat.CodesDistinct | src/lidar_dtc_monitor.h:19-33 | No two categories, of one lidar or of two, share a code, and no code is zero |
| Heartbeat.CodeIs | src/lidar_dtc_monitor.h:19-33 | The code of a lidar's category is its role's base plus the category's offset |
| Heartbeat.HeartbeatPublisher.UpdateFaults | src/functional_safety_heartbeat.cpp:67-74 | Passes clear, failures set, a failure wins over a pass, zero is no fault |
| Heartbeat.HeartbeatPublisher.RecordWork | src/functional_safety_heartbeat.cpp:76-78 | A unit of work is counted modulo 2^32 and changes nothing else; every message carries the count |
| Heartbeat.HeartbeatPublisher.PublishNow | src/functional_safety_heartbeat.cpp:81-96 | Every message carries the next number and the whole set of active faults in ascending order |
| Heartbeat.HeartbeatPublisher.PublishDiagnosticSnapshot | src/lidar_dtc_reporting.h:12-41 | A snapshot feeds the latch with the failed and the passed current categories |

## Left out

- JsonNumber.ParseNumber: a `Double` event carries its literal instead of a value, and whether a literal is too big for a double is an oracle.
- Floating point elsewhere: printing doubles, extrinsics and spherical conversion are not modelled.
- RapidJSON memory management, SIMD scanning, in-situ streams, comments, NaN and infinities, numbers as strings, raw values, `schema.h`, UTF-16 and UTF-32: other encodings and options than the driver uses.
- Error codes and offsets of the two JSON parsers: acceptance, events and the position after success are modelled. Handlers that stop a parse are not modelled.
- Shifts and masks in UTF-8 decoding are written as division and remainder; the class masks stay bit vectors.
- `Writer` and `PrettyWriter` are one class with a format, since the second differs only in white space.
- PercentEncodeStream: the bytes of a character are validated into a side stream before they are put, so what a failing `Stringify` has put before it fails is not modelled.
- PointerTree.CreatedIsFound: asks for arrays shorter than 2^32-1 where `-` is applied, because sizes are 32-bit.
- `Create` works on tree values, not in place, so sharing of nodes and allocation are not captured.
- Snapshots in the recorder queue are lists of field values; its 64-bit counters are unbounded.
- StateRows.ReaderRecoversRows: the line parser is the driver's own RapidJSON reader. The script parses with Python's `json.loads`, which is not part of this model; that its way of splitting lines finds the same rows and that the rows are UTF-8 is proved (`StateRows.ScriptSplitsAtRows`, `RowEncoding.RowIsUtf8`). The script also skips lines of more than 64 KiB.
- RowFates.AcceptedWrittenOrCounted: is about one process that lives to the end; after a death `CrashLog.CrashTolerant` says what the files hold.
- CrashLog.CrashTolerant: every process uses the same `file_bytes`, because a file left by a process with another limit counts as one found at the start.
- The directory tree above the log and files that are no regular files: creating the directory is one call that succeeds or fails.
- `RecordObservation`, `Stop` and the loop of `Run` are interleaved steps in `Shutdown` rather than methods, because what they promise is about interleavings.
- The writer's scheduling setup, its early exit when that fails, the exception path in `Run`, and waking by the condition variable: a sleeping writer may wake at any time.
- Weak memory effects of `volatile` fields: steps are sequentially consistent.
- Reuse of a queue after `DeInitQueue`, the publisher's behaviour once exit is requested, the IMU queue, and the ROS 2 PCL transfer format.
- Wakeup.NoLostWakeup: queues are represented by how many frames they hold, because their contents are the subject of the ring modules.
- `CacheIndex`: the mapping from lidar to index is a given injective map; `StorageLvxPointData` is not modelled.
- PubHandler.PubHandler.CheckTimer: asks for at most 32 known lidars, the size of the frame arrays; the driver has no check, and with more it would write behind the arrays.
- PubHandler.PubHandler.RawDataProcess: asks for the same, for the same reason.
- Lds.EndToEnd: storing and taking are single events on whole rings here; the interleaved steps of the two threads are in `Lds.EndToEndInterleaved`, for one lidar's ring.
- Lds.EndToEndInterleaved: that the frames offered to a ring are those published for its lidar, in order, is what `Lds.StoreOffers` proves of the packet thread; the schedule of one ring leaves out the steps on other lidars' rings, which touch nothing of it.
- Decoding of raw packets into points: a packet carries its decoded points.
- History.FoldSession: leaves out the wall-clock jumps and the last-valid-field summary that the same loop collects, since neither affects transitions, gaps or last values.
- In `device_history`: reading and budgeting of files, validity of single fields and the truncation of output lists to 128 entries.
- `last_values` and `last_evidence` are one map in the model, since the script updates them together.
- The heartbeat's boot id, timer, QoS and state field, and the rest of the diagnostic message.
- ROS nodes, publishers, launch files, sockets, SDK calls, process supervision and the documentation tooling.
