# Verified models of muhan

muhan is a Korean MUD: a C code base for its data files, and a Go server that
replaces the old game daemon. This project models the parts of it whose
correctness is least obvious and proves what they are relied on for.

| files | part |
|---|---|
| `LzwTable`, `LzwCodec`, `LzwPacking`, `LzwProgram`, `LzwReference`, `LzwRatio` | the LZW compressor for player files (`util/ed/compress.c`), whose codes are slots of a coalesced hash table |
| `Records`, `Trees`, `Restoring`, `PlayerFile`, `LargePlayer`, `Rooms` | object, creature and room images and the player file built from them (`util/ed/editor3.c`, `editor4.c`, `files2.c`) |
| `TagQueue`, `RecordCache` | the least-recently-used record cache over a doubly linked queue (`util/ed/files2.c`) |
| `Utf8`, `LineDiscipline`, `LineChunks`, `LineEditor`, `LineEnds` | the terminal line discipline: Telnet stripping, UTF-8 assembly, line editing (`internal/protocol/line.go`) |
| `RateLimit` | the command limiter (`internal/session/ratelimit.go`) |
| `Connections` | the connection counters of the accept loop (`cmd/muhan-server/main.go`) |
| `LoginText`, `CharacterCreation`, `CreationDialogue`, `Login`, `LoginRuns`, `LoginTurns`, `LoginOutcomes`, `LoginBlocks`, `LoginSite`, `LoginScenes` | login and character creation (`cmd/muhan-server/login.go`) |
| `CSource`, `CSourceText`, `CSourceRows`, `CSourceLiterals` | the C lexers of the command-table extractor (`internal/commandspec/extract/extract.go`) |

`Bytes` holds the byte type they share, and `Counting` counts byte strings for `LargePlayer`. `dafny verify dfyconfig.toml` checks everything.

## How it is built

Code that updates state in place is a class or a method with the program's own
loops, and its contract equates the new state with a function of the old one.
What the code is for is then proved about those functions, for every input and
every run.

*Compressor.* A `Table` carries beside its slots the order of insertion and the
list each slot is on. That makes the collision lists' soundness a first-order
invariant (`Chained`), kept by every insertion, and gives the expander's walk
its bound. `next == 0` ends a list; that is sound because slot 0 is filled
directly by the second insertion of `init_tab` (`HashValues`, `SeedingStep`).
`unhash` does not look at `used`, and a blank slot looks like the pair (0, 0);
that is sound because (0, 0) hashes to slot 0. The stack holds signed chars:
`pop` sign-extends, and no result equals the EMPTY mark.

*What the functions mean.* The functions the methods are proved against are
pinned in turn by statements that do not use them: the compressor by a reference
LZW over a list of phrases, what loading gives back by the record that was saved,
decoding by exactly the encodings, the lexers by texts put together from comments,
literals and braces, the dialogue by the character described, the login limits by
times in milliseconds.

*Line discipline.* `Feed` looks ahead within a chunk; `Step` reads byte by byte.
They differ exactly where an IAC is followed, in the same chunk, by a byte that
is no option command and is not inert: uncut, the byte is text; cut after the
IAC, it is dropped. `Clean` excludes just that.

*Login.* A run (`LoginRuns.Run`) interleaves lines of many sessions with checks
that are under way outside the lock, and with arbitrary changes of the world's
players: what the lock alone guarantees. The server asks for less. Its one event
loop handles a line to the end before it takes the next
(`internal/engine/game/loop.go:247-268`); such runs are made of turns
(`TakeTurns`), and a turn with a line is one call of `HandleLine` (`TurnIsCall`).
Sessions that the accept loop starts in the middle of a line might as well have
been started after it (`StartCommutes`).

Properties that do not hold of the code, with their exact conditions:

- Expanding undoes compressing exactly for non-empty inputs; `compress` of
  nothing emits the code of byte 255 (`CompressRoundTrip`).
- A saved player can be loaded again exactly if its file is shorter than 30000
  bytes; `save_ply` accepts images up to 80000 bytes and does not check the file
  (`SaveLoad`). There are players whose file is too long: among those whose items
  are filled with twelve letters, all of which `save_ply` accepts, there are more
  than there are shorter files (`TooLargeExists`).
- Cutting a stream into chunks is invisible exactly for clean streams
  (`ChunkIndependence`); `CutSwallowsLetter` is a stream that is not.
- A line of printable bytes is emitted as its text, invalid bytes left out,
  exactly if the text is timely: counting runes and single invalid bytes as
  units, between the recognition of an invalid byte and the end of the text come
  at least as many bytes as there are units from it to the last rune. After
  dropping an invalid byte the code does not look at the bytes after it until one
  more arrives, so one unit leaves per byte (`LineIsItsText`, `LetterLost`).
- For commands in time order the limiter's verdict is always right. After such
  commands, at a time before the last one's, it is wrong exactly if the quota is
  free in the last command's window and used up in that of the earlier time
  (`StepBackExact`, with the instance `ClockStepBack`); the stamps are wall-clock
  times, which can go back. After times in any order a command is accepted
  wrongly only if a forgotten time lies in its window, and refused wrongly only if
  a time still held does not (`WrongVerdicts`, with the refusal `WrongRefusal`).
- A block on a host keeps its record for its five minutes, one line at a time
  (`BlockLastsInTurns`), but not every session of that host out. A session turned
  away has no record, and an empty line gives it one without a host, for which
  nothing is blocked or counted: `BlockedHostLogsIn` ends in a login while the
  host is blocked. A session leaves its host exactly so, or by being started anew
  from elsewhere (`HostStep`); over any turns in which it does neither, no
  password of it is checked (`BlockKeepsOut`).
- Callers of `HandleLine` that overlap could end a block at once: a step ends it
  early exactly if it is a successful check for a session of that host, success
  deleting the host's record with the block in it (`BlockLifted`);
  `OverlapLiftsBlock` is such a run.
- A session behind the site password gets past it exactly by sending it; but once
  turned away it is unknown, and an unknown session counts as one whose site
  password is empty, so that an empty line does too (`SiteStep`, `EmptyLineOpens`).

## Model

| member | source | states |
|---|---|---|
| LzwTable.EndOfChain | util/ed/compress.c:65-73 | the end of a collision list is a used slot of the same list with next 0 |
| LzwTable.ProbeFree | util/ed/compress.c:88-98 | as long as fewer entries were made than there are slots, the linear probe stops, at a free slot |
| LzwTable.InsertChained | util/ed/compress.c:75-104 | every insertion keeps the lists acyclic, threaded in insertion order, each entry reachable from its own hash value, and never links to slot 0 |
| LzwTable.FindExact | util/ed/compress.c:110-126 | unhash finds a pair if and only if the table holds it |
| LzwTable.FindOwn | util/ed/compress.c:110-126 | unhash finds every entry at its own slot |
| LzwTable.HashValues | util/ed/compress.c:52-62 | (0,0) hashes to slot 0, the first single byte to 2048 and the second to 0 |
| LzwTable.HashIsMidSquare | util/ed/compress.c:52-62 | the hash value is bits 6 to 17 of the square of the sum with bit 11 set |
| LzwTable.SlotIsNearest | util/ed/compress.c:75-104 | a new pair goes to its hash value's slot or else to the first free one, round and round, from 101 behind its list's end |
| LzwTable.SeedingStep | util/ed/compress.c:128-137 | each turn of init_tab enters the next single byte without linking to slot 0 |
| LzwTable.InsertDictionary | util/ed/compress.c:139-149 | entering an absent extension of an entry keeps the table a dictionary: single bytes first, predecessors earlier, no pair twice |
| LzwCodec.SpellLength | util/ed/compress.c:301-310 | predecessor walks lead to earlier entries only, so no string is longer than 3841 bytes |
| LzwCodec.StackBound | util/ed/compress.c:327-334 | on compressor output no walk of the expander stacks more than 3840 bytes |
| LzwCodec.DecodeOneSpells | util/ed/compress.c:292-315 | a received code is expanded to the compressor's string for it, known or pending |
| LzwCodec.PendingSpells | util/ed/compress.c:294-299 | an unused code is the one pending entry and stands for the previous string plus its own first byte |
| LzwCodec.Lockstep | util/ed/compress.c:247-260 | the expander's whole table after k+1 codes is the compressor's after k |
| LzwCodec.CodesRoundTrip | util/ed/compress.c:230-325 | decoding the codes of x gives x, and [255] for the empty x; at most one code per byte |
| LzwCodec.LearnSound | util/ed/compress.c:316-319 | on any code stream at all the expander's table keeps its lists sound |
| LzwReference.RefinesReference | util/ed/compress.c:230-266 | code by code the compressor emits the phrases of a reference LZW without a hash table, and entry by entry its table holds the phrases the reference knows |
| LzwReference.EveryMissLearned | util/ed/compress.c:254-257 | after k codes the table has 256 + k entries, 4096 at most, and finds code k with the first byte of the next phrase if there was room |
| LzwPacking.PackRoundTrip | util/ed/compress.c:154-226 | unpacking n packed 12-bit codes gives them back, for both parities, and they take 3n/2 bytes rounded up |
| LzwPacking.CompressRoundTrip | util/ed/compress.c:230-325 | uncompress(compress(x)) = x if and only if x is not empty; compressed size is at most 3/2 of the size, rounded up |
| LzwRatio.EncodeBound | util/ed/compress.c:247-260 | once all pairs of letters were met, at most one code is emitted for every second letter |
| LzwProgram.Codec.Eolist | util/ed/compress.c:65-73 | the loop returns the end of the list |
| LzwProgram.Codec.Hash | util/ed/compress.c:75-104 | returns the slot of the specification and, updating, changes nothing but the one link |
| LzwProgram.Codec.Unhash | util/ed/compress.c:110-126 | the loop computes Find |
| LzwProgram.Codec.InitTab | util/ed/compress.c:128-137 | leaves the starting dictionary, empty carries and an empty stack |
| LzwProgram.Codec.UpdTab | util/ed/compress.c:139-149 | the array becomes the table with the pair inserted, its lists sound |
| LzwProgram.Codec.GetCode | util/ed/compress.c:154-182 | yields the first of the remaining codes, leaving the rest, or UEOF when there is none |
| LzwProgram.Codec.PutCode | util/ed/compress.c:184-199 | writes the bytes and keeps the nibble that packing requires |
| LzwProgram.Codec.FlushOut | util/ed/compress.c:219-226 | writes the fractional byte if there is one |
| LzwProgram.Codec.Compress | util/ed/compress.c:230-266 | computes Compressed, for every input |
| LzwProgram.Codec.Uncompress | util/ed/compress.c:270-325 | computes Expanded, for every input, including the fatal exit and the missing code |
| LzwProgram.Codec.Walk | util/ed/compress.c:301-307 | the walk's stack and last byte spell the entry, or the stack overflows |
| LzwProgram.Codec.Push | util/ed/compress.c:327-334 | stacks a signed char and reports the fatal exit at 4096 |
| LzwProgram.Codec.Pop | util/ed/compress.c:336-344 | yields the sign-extended top, never EMPTY, or EMPTY |
| Records.ObjImageRoundTrip | util/ed/editor4.c:135-143 | an object record is recovered from its image |
| Records.CrtImageRoundTrip | util/ed/editor4.c:199-212 | a creature record is recovered from its image |
| Trees.ObjRoundTrip | util/ed/editor4.c:23-63 | reading what was written gives the tree pruned to permanent descendants, links cleared, shots clamped, and the same byte count |
| Trees.CrtRoundTrip | util/ed/editor4.c:74-113 | the same for a creature with its inventory, hp and mp clamped |
| Trees.CountObj | util/ed/editor3.c:21-36 | counts exactly the children that are written |
| Trees.WriteObjToMem | util/ed/editor4.c:23-63 | lays the image over the buffer, touches nothing else, and never returns -1 |
| Trees.WriteCrtToMem | util/ed/editor4.c:74-113 | the same for a creature |
| Trees.ReadObjFromMem | util/ed/editor4.c:123-176 | returns the object and byte count that the buffer spells |
| Trees.ReadCrtFromMem | util/ed/editor4.c:187-245 | the same for a creature |
| Restoring.ObjComesBack | util/ed/editor4.c:135-143 | an object read again has the contents of the record written, links cleared and shots no more than their maximum, and so have its contents, all of them or the permanent ones |
| Restoring.CrtComesBack | util/ed/editor4.c:199-219 | the same for a creature, with its hit and magic points |
| Restoring.PathsRestored | util/ed/editor4.c:123-176 | saved whole, a tree comes back with a restored object at exactly the same paths |
| Rooms.RoomRoundTrip | util/ed/editor3.c:253-353 | reading a room file gives the room without temporary monsters and items, every kept monster with its full inventory |
| Rooms.RoomComesBack | util/ed/editor3.c:253-353 | a room read again has the record, exits and descriptions written, the permanent or all monsters with all they carry, and the permanent or all items |
| Rooms.DescRoundTrip | util/ed/editor3.c:614-668 | a description without NUL comes back, and a missing one as missing |
| PlayerFile.SaveLoad | util/ed/files2.c:541-551 | a saved player loads as the same creature and item tree, cleared and clamped, if and only if its file is below 30000 bytes |
| PlayerFile.PlayerComesBack | util/ed/files2.c:541-607 | a player whose file is below 30000 bytes is loaded with every record restored, at every path of the inventory |
| PlayerFile.LoadErrors | util/ed/files2.c:572-607 | which files are refused, and that what is loaded was read from the expanded file |
| LargePlayer.TooLargeExists | util/ed/files2.c:541-551 | a player exists that save_ply saves and whose file is too large for load_ply |
| PlayerFile.NothingPruned | util/ed/files2.c:544-544 | saving a player drops none of the items carried |
| PlayerFile.SavePly | util/ed/files2.c:524-563 | produces the compressed image |
| PlayerFile.LoadPly | util/ed/files2.c:572-619 | computes LoadFrom, with its error returns, on any file |
| PlayerFile.SaveThenLoad | util/ed/files2.c:592-607 | the two routines in sequence give the player back, every record restored, or report the file too large |
| TagQueue.Queue.Put | util/ed/files2.c:631-652 | the queue stays a well-formed doubly linked list, the tag in front |
| TagQueue.Queue.Pull | util/ed/files2.c:663-683 | removes exactly the last tag |
| TagQueue.Queue.Unlink | util/ed/files2.c:700-716 | removes exactly the given tag, wherever it stands |
| TagQueue.Queue.Front | util/ed/files2.c:694-719 | moves the tag to the front and keeps the order of the others |
| RecordCache.Cache.LoadObj | util/ed/files2.c:456-515 | cache, queue and result are those of Load, and every record held has one tag and every tag its record |
| RecordCache.Cache.Evict | util/ed/files2.c:505-510 | frees exactly the least recently used records over the limit |
| RecordCache.LoadSequence | util/ed/files2.c:456-515 | loads one after the other through a new cache: every result is the uncached one |
| RecordCache.Transparent | util/ed/files2.c:456-515 | over any sequence of loads every result is the uncached one, and exactly the most recently loaded records, at most OQMAX, are held in recency order |
| RecordCache.RecentByRecency | util/ed/files2.c:694-719 | the recency order has every record requested once, the one requested last in front |
| RecordCache.MostRecentHeld | util/ed/files2.c:505-510 | the cache holds the most recently requested records, as many as there is room for |
| Utf8.EncodeDecodes | internal/protocol/line.go:139-156 | an encoding is recognised at its last byte and not before, and decodes to its rune |
| Utf8.DecodeStable | internal/protocol/line.go:139-151 | what FullRune settles, later bytes do not change |
| Utf8.DecodeEncodes | internal/protocol/line.go:139-156 | whatever is accepted is an encoding of a scalar value |
| Utf8.WaitsForEncodings | internal/protocol/line.go:139-151 | bytes are waited for if and only if they begin an encoding and are not all of it |
| LineDiscipline.Discipline.FeedChunk | internal/protocol/line.go:46-105 | the loop with its jumps computes Feed |
| LineDiscipline.Discipline.TextByte | internal/protocol/line.go:83-102 | the switch computes TextStep |
| LineDiscipline.Discipline.Append | internal/protocol/line.go:158-170 | the loop computes AppendRune |
| LineDiscipline.Discipline.AcceptUTF8Byte | internal/protocol/line.go:139-156 | computes AcceptByte |
| LineDiscipline.Discipline.DeleteLast | internal/protocol/line.go:127-137 | computes Backspace |
| LineDiscipline.Discipline.ResetLine | internal/protocol/line.go:121-125 | empties the line and the pending bytes |
| LineDiscipline.Discipline.constructor | internal/protocol/line.go:30-41 | a fresh discipline, with the default limit for one not positive |
| LineChunks.ReadChunks | internal/protocol/line.go:46-105 | a new discipline that is fed any chunks gives the lines and the state of FeedAll |
| LineChunks.FeedStep | internal/protocol/line.go:52-81 | at a harmless position looking ahead in the chunk makes no difference |
| LineChunks.ChunksAgree | internal/protocol/line.go:52-103 | every cutting of a clean stream yields the lines and the state of the byte-by-byte reading |
| LineChunks.ChunkIndependence | internal/protocol/line.go:52-81 | all cuttings of all prefixes of a stream agree if and only if the stream is clean |
| LineChunks.CutSwallowsLetter | internal/protocol/line.go:52-81 | IAC 'A' is not clean: in one chunk it types an A, in two it does not |
| LineEditor.AppendIsNewest | internal/protocol/line.go:158-170 | the buffer keeps the longest suffix within the byte limit |
| LineEditor.NewestIsLongest | internal/protocol/line.go:158-170 | dropping one rune fewer would exceed the limit |
| LineEditor.RefinesEditor | internal/protocol/line.go:46-105 | for any text, interleaved with complete Telnet options anywhere, cut anywhere, the lines and the buffer are those of the rune-level editor |
| LineEditor.ReadText | internal/protocol/line.go:46-105 | a text typed to a new discipline, cut anywhere, with options anywhere, comes out as the editor's lines |
| LineEditor.OptionsVanish | internal/protocol/line.go:58-81 | complete options leave no trace, even inside a rune |
| LineEditor.OtherCommands | internal/protocol/line.go:69-81 | an IAC before any byte but the four option commands is dropped |
| LineEditor.FeedNeat | internal/protocol/line.go:46-105 | on any bytes bufferBytes is the buffer's length in bytes and within the limit, and at most three bytes are pending |
| LineEditor.FeedIsText | internal/protocol/line.go:52-103 | any chunk does what the bytes of it that are text do |
| LineEditor.EveryByteAccounted | internal/protocol/line.go:92-102 | each byte given to assembly is in a rune, counted invalid, pending, or discarded with its line |
| LineEditor.AssemblyLags | internal/protocol/line.go:139-156 | on printable bytes, valid or not, the runes assembled and those still waiting are the runes of the text |
| LineEditor.BufferIsNewest | internal/protocol/line.go:158-170 | while printable bytes arrive the buffer is the newest of all runes assembled |
| LineEditor.LeftOver | internal/protocol/line.go:139-156 | which runes still wait when the bytes end, from the bytes alone: one unit leaves per byte, none before it is recognised |
| LineEditor.LineIsItsText | internal/protocol/line.go:84-91 | for every text of printable bytes that fits: the line emitted is the text without its invalid bytes if and only if the text is timely |
| LineEditor.LetterLost | internal/protocol/line.go:145-151 | E4 'A' CR is not timely and yields an empty line |
| LineEnds.EndEmpties | internal/protocol/line.go:83-91 | in any state a line end emits the buffer and leaves nothing, LF after CR does nothing, a backspace forgets pending bytes and one rune |
| LineEnds.OtherControls | internal/protocol/line.go:92-102 | other controls and a lone 155 do nothing; other bytes go to assembly and emit no line |
| LineEnds.NextLinesAreNew | internal/protocol/line.go:84-91 | after any bytes and a line end the lines that follow are those of a new discipline |
| LineEnds.NextChunksAreNew | internal/protocol/line.go:46-105 | the same for chunks, whatever Telnet command is under way |
| RateLimit.RateLimiter.Allow | internal/session/ratelimit.go:64-94 | the pruning loop and the two limits compute Admit |
| RateLimit.FirstCommandsPass | internal/session/ratelimit.go:38-53 | a new limiter, whatever arguments it was given, lets the first K commands pass, and the next one if and only if the first has left its window |
| RateLimit.SustainedRate | internal/session/ratelimit.go:81-90 | the sustained limit is rate times window in seconds rounded down, or the rate if that is none |
| RateLimit.WrapsRound | internal/session/ratelimit.go:84-84 | a product that does not fit wraps round as in 64 bits |
| RateLimit.DefaultLimits | internal/session/ratelimit.go:38-53 | by default ten commands a second |
| RateLimit.VerdictByFullHistory | internal/session/ratelimit.go:64-94 | a command is accepted if and only if fewer than K of all commands ever accepted lie in the last window, pruning notwithstanding |
| RateLimit.QuotaPerWindow | internal/session/ratelimit.go:64-94 | any K+1 consecutive accepted commands span at least a window |
| RateLimit.StepBackExact | internal/session/ratelimit.go:64-94 | when the clock steps back after commands in time order the verdict is wrong if and only if the quota is free in the last command's window and used up in the earlier time's |
| RateLimit.ClockStepBack | internal/session/ratelimit.go:67-74 | an instance of a step back and a wrong acceptance |
| RateLimit.WrongVerdicts | internal/session/ratelimit.go:64-94 | after times in any order a wrong acceptance needs a forgotten time in the window, a wrong refusal a held time outside it |
| RateLimit.WrongRefusal | internal/session/ratelimit.go:67-74 | an instance of a wrong refusal after two steps back |
| Connections.StepAccurate | cmd/muhan-server/main.go:523-560 | every step of the acceptor or of an ending session keeps the counts right |
| Connections.Accounting | cmd/muhan-server/main.go:603-613 | in every interleaving at most 256 in all and 5 per address, no entry below 1, the sum of the map at least the total and equal exactly when nobody is between the updates, and nothing left when nobody is |
| Connections.Admission | cmd/muhan-server/main.go:523-560 | a connection is served if and only if fewer than 256 sessions run and fewer than five of its address run or are leaving; one turned away leaves no trace |
| CharacterCreation.ReadStats | cmd/muhan-server/login.go:943-965 | the loop computes StatsFrom |
| CharacterCreation.ApplyRaceBonus | cmd/muhan-server/login.go:967-1003 | the switch adds exactly the race's bonus |
| CharacterCreation.GiveAnswer | cmd/muhan-server/login.go:351-467 | the handlers of the dialogue compute Answer |
| CharacterCreation.AnswerReady | cmd/muhan-server/login.go:351-467 | any answer leads to a stage whose earlier questions are validly answered, at most one stage on |
| CharacterCreation.NameReady | cmd/muhan-server/login.go:245-260 | an accepted name starts creation |
| CharacterCreation.ReadyBuilds | cmd/muhan-server/login.go:1005-1019 | at the password step building the character never fails validation, and the stats are the player's points with the bonus applied once |
| CharacterCreation.BonusBounds | cmd/muhan-server/login.go:967-1003 | the bonus takes valid points to 2..23 each and at most 62 in all |
| CreationDialogue.DialogueRecords | cmd/muhan-server/login.go:351-467 | the eight answers that describe a character lead to the password with exactly that character on record, race bonus included |
| CreationDialogue.StatsRead | cmd/muhan-server/login.go:943-965 | five numbers are taken for what they were written as if and only if each is 5 to 18 and they come to 54 at most |
| CreationDialogue.FirstLetterAnswers | cmd/muhan-server/login.go:371-449 | which lines answer the questions for yes, gender and alignment |
| CreationDialogue.FirstDigitAnswers | cmd/muhan-server/login.go:930-941 | a numbered question takes the first digit, if it is offered |
| CreationDialogue.RefusalKeeps | cmd/muhan-server/login.go:371-467 | a question asked again has recorded nothing |
| CreationDialogue.BuildRefuses | cmd/muhan-server/login.go:1005-1019 | which records can be made into a character |
| LoginText.TrimExact | cmd/muhan-server/login.go:246-246 | trimming takes away spaces at both ends and nothing else |
| Login.LoginManager.CleanupIPFailures | cmd/muhan-server/login.go:118-125 | removes exactly the stale records |
| Login.LoginManager.HandleLine | cmd/muhan-server/login.go:127-232 | computes HandleAlone: both locked sections with the check between them |
| Login.LoginManager.HandleLocked | cmd/muhan-server/login.go:131-206 | computes Handle, the part up to the first unlock, for every step |
| Login.LoginManager.HandleName | cmd/muhan-server/login.go:245-280 | computes AnswerName |
| Login.LoginManager.HandlePasswordAfterVerify | cmd/muhan-server/login.go:282-333 | computes AfterVerify |
| Login.LoginManager.CountFailure | cmd/muhan-server/login.go:309-322 | the host's record counts the failure and blocks at the fifth |
| Login.LoginManager.HandleCreatePasswordAfterHash | cmd/muhan-server/login.go:488-508 | computes AfterHash |
| LoginRuns.StepSane | cmd/muhan-server/login.go:127-232 | every step of any session keeps every session, check and host record in order |
| LoginRuns.ActorOnlyIfProven | cmd/muhan-server/login.go:151-206 | somebody is logged in only by a check of a line of that session against that player's stored hash, or by completing a valid creation |
| LoginRuns.CheckNeverExpires | cmd/muhan-server/login.go:173-179 | a check never finds its session gone or moved on; only a refused new player fails |
| LoginRuns.CountersBounded | cmd/muhan-server/login.go:309-333 | in every reachable state sessions have fewer than 3 failures and a host's counter is its run of failures modulo 5 |
| LoginRuns.EveryFifthBlocks | cmd/muhan-server/login.go:316-321 | each counted failure lengthens the run and exactly every fifth starts a block |
| LoginRuns.BlockLifted | cmd/muhan-server/login.go:291-296 | a step ends a block before its time if and only if it is a successful check for a session of that host; cleanup never does |
| LoginTurns.TurnIsCall | internal/engine/game/loop.go:247-268 | a turn with a line does what one call of HandleLine does |
| LoginTurns.BlockLastsInTurns | internal/engine/game/loop.go:342-352 | one line at a time, however many and of whichever sessions, the host's record stays blocked for its time |
| LoginTurns.HostStep | cmd/muhan-server/login.go:131-149 | a step takes a session away from its host if and only if it is started anew from elsewhere, or sends an empty line when it has no record |
| LoginTurns.BlockKeepsOut | cmd/muhan-server/login.go:135-149 | over any turns in which a session of a blocked host does neither, no password of it is checked |
| LoginTurns.StartCommutes | cmd/muhan-server/main.go:593-596 | starting a session between the two locked parts of another's line does what starting it after the line does |
| LoginOutcomes.RightPasswordLogsIn | cmd/muhan-server/login.go:151-180 | start, name and right password log the player in, from any host not blocked |
| LoginOutcomes.WrongPassword | cmd/muhan-server/login.go:324-333 | a wrong password closes the session if and only if it is blank or the third |
| LoginOutcomes.NameRefused | cmd/muhan-server/login.go:245-280 | which names are asked for again, and that a player without a password is turned away |
| LoginOutcomes.NewName | cmd/muhan-server/login.go:251-260 | an unknown name starts a creation if and only if it is one to six Hangul syllables |
| LoginOutcomes.NewPasswordLength | cmd/muhan-server/login.go:182-191 | a new password is taken if and only if it is 3 to 14 bytes long |
| LoginOutcomes.AnswerTaken | cmd/muhan-server/login.go:210-230 | the answers of the dialogue are taken by Answer, host and all |
| LoginOutcomes.CreationEnds | cmd/muhan-server/login.go:488-508 | the character created is logged in if and only if the world has stored it |
| LoginOutcomes.PlayerGone | cmd/muhan-server/login.go:285-289 | a player gone from the world ends the session, and nothing is counted |
| LoginBlocks.RecordSwept | cmd/muhan-server/login.go:118-125 | a line removes a host's record if and only if 600000 ms have passed since its last failure and its block is over |
| LoginBlocks.RecordSurvives | cmd/muhan-server/login.go:118-125 | over any turns a record stays until more than 600000 ms after its last failure |
| LoginBlocks.TurnRecord | cmd/muhan-server/login.go:291-322 | what a turn does to a host's record: a right password removes it, a wrong one counts, the fifth blocks for 300000 ms |
| LoginBlocks.FiveGuessesBlock | cmd/muhan-server/login.go:309-322 | five wrong passwords from a host, each within ten minutes of the one before and no right one, block it for five minutes, whatever is sent in between |
| LoginScenes.BlockedHostLogsIn | cmd/muhan-server/login.go:131-149 | a run, one line at a time, in which a session of a blocked host is turned away, sends an empty line and logs in |
| LoginScenes.OverlapLiftsBlock | cmd/muhan-server/login.go:159-180 | a run with overlapping lines that blocks a host and lifts the block at once |
| LoginSite.SiteStep | cmd/muhan-server/login.go:234-243 | a step lets a session past the site password if and only if it sends the right line or is started anew, and then only to the question for the name |
| LoginSite.SiteKeepsOut | cmd/muhan-server/login.go:102-109 | started with a site password, a session stays shut out over any run in which it sends neither that nor an empty line |
| LoginSite.EmptyLineOpens | cmd/muhan-server/login.go:234-243 | a wrong line and then an empty one get past the site password |
| CSource.StripCComments | internal/commandspec/extract/extract.go:543-621 | the loop computes Strip |
| CSource.StripIdempotent | internal/commandspec/extract/extract.go:543-621 | stripping twice is stripping once |
| CSource.StripKeepsLines | internal/commandspec/extract/extract.go:593-613 | the number of newlines is kept |
| CSource.StripKeepsLiterals | internal/commandspec/extract/extract.go:553-582 | literals come through character by character |
| CSourceText.StripAppend | internal/commandspec/extract/extract.go:543-621 | a text that ends in code is stripped independently of what follows it |
| CSourceText.BlockCommentStripped | internal/commandspec/extract/extract.go:602-613 | of a block comment, up to its first closing mark, just the newlines are left, and what follows is stripped on its own |
| CSourceText.LineCommentStripped | internal/commandspec/extract/extract.go:593-601 | a line comment is gone up to its newline |
| CSourceText.LiteralPasses | internal/commandspec/extract/extract.go:553-592 | a literal comes through whole, marks of comments and all |
| CSourceText.PlainPasses | internal/commandspec/extract/extract.go:614-617 | anything without quotes and slashes comes through as it is |
| CSource.BraceBody | internal/commandspec/extract/extract.go:214-272 | the loop computes BodyOf |
| CSource.BodyHasRows | internal/commandspec/extract/extract.go:274-336 | any body braceBody returns is balanced and accepted by topLevelRows |
| CSource.RowsBalanced | internal/commandspec/extract/extract.go:316-330 | every row returned is balanced and ends outside any literal |
| CSourceRows.BodyFound | internal/commandspec/extract/extract.go:214-272 | between a brace and its own closing brace, whatever literals and braces are inside |
| CSourceRows.RowsFound | internal/commandspec/extract/extract.go:274-336 | the rows are exactly the insides of the outermost braces |
| CSource.TopLevelRows | internal/commandspec/extract/extract.go:274-336 | the loop computes RowsOf |
| CSource.ConsumeCStringLiteral | internal/commandspec/extract/extract.go:448-464 | for any text the loop returns the body up to the first unescaped quote, or the error |
| CSource.DecodeCStringBody | internal/commandspec/extract/extract.go:466-513 | the loop computes Decode |
| CSource.DecodeEscape | internal/commandspec/extract/extract.go:478-537 | simple, hex and octal escapes |
| CSource.LiteralDecodes | internal/commandspec/extract/extract.go:448-513 | a body cut out by consumeCStringLiteral never triggers the trailing-backslash error |
| CSourceLiterals.LiteralRoundTrip | internal/commandspec/extract/extract.go:448-513 | any text of 8-bit characters, written as a C literal, is cut out and decoded to itself |
| CSourceLiterals.HexDecodes | internal/commandspec/extract/extract.go:515-528 | a text written in hexadecimal escapes decodes to itself |
| CSourceLiterals.HexRange | internal/commandspec/extract/extract.go:515-528 | any number of hexadecimal digits, and which values are errors |
| CSourceLiterals.EscapeLetters | internal/commandspec/extract/extract.go:478-512 | what each escape letter stands for, and which are errors |

## Left out

- Trees.ObjRoundTrip: the parent_obj and tag pointers that reading sets on the children are not modelled.
- Trees.CrtRoundTrip: the parent_crt and tag pointers that reading sets are not modelled.
- Trees.ReadObjFromMem: returns the tree as a value; it does not set parent pointers or splice tags into a list.
- Trees.ReadCrtFromMem: the same for a creature.
- Rooms.RoomRoundTrip: stated on values; the parent_rom pointers that read_rom sets are not modelled.
- LargePlayer.TooLargeExists: for records of the model's own sizes, since the program's are not part of this model.
- Login.LoginManager.HandleLine: a hashing error and a player the world refuses are one case, and the screens shown after logging in are left out.
- Login.LoginManager.HandlePasswordAfterVerify: the new hash stored after a check against an old one is recorded only in `LoginRuns.Finish`, and disconnecting the player's other session is left out.
- Login.LoginManager.HandleCreatePasswordAfterHash: creating, saving and announcing the player are one outcome, a boolean.
- LoginRuns.BlockLastsInTurns: that the loop runs in a single goroutine (`cmd/muhan-server/main.go:451-455`) is read off the program, not proved.
- Struct layout: mstruct.h and mtype.h are not part of this model; records carry the fields the routines look at and opaque bytes, in an order and of sizes of the model's own, little-endian.
- Linked tags of objects: the trees of editor3.c and editor4.c are values with sequences of children.
- editor3.c: the file routines are modelled on values in `Rooms`, not as loops over a file descriptor; their error returns appear as reading past the end.
- Readied items: `ready[20]` is cleared by reading and never written, so only the inventory is modelled.
- Buffers overrun: what happens when a player's image or its compressed form does not fit the buffers of `save_ply` is undefined in C and excluded by `Saveable`.
- malloc failure and merror other than the size checks and the stack overflow.
- load_crt: the same routine as `load_obj`; its `fd = -1` and heal time stamp are not modelled.
- load_rom and its eviction loop: it stops only if some cached room has no players.
- OQMAX, OMAX: parameters, since their header is not part of this model.
- Overflow of times and of `now - window` in the rate limiter; the product of rate and window does wrap to 64 bits.
- Verification, hashing, EUC-KR length, path safety, and the world's players: parameters and events.
- Post-login screens, duplicate-session disconnection and rendering of messages.
- The accept loop's sockets, lockout lookup and session registration: only their outcome, serving or turning away.
- splitFields and parseRow of the extractor: further lexers of the same kind.
- C source text is a sequence of characters standing for bytes.
