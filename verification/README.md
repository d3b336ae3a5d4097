# Lazaret, verified models

Dafny models of the parts of Lazaret (a scanner for malicious packages) whose correctness is not seen from one function:
protocols, transformations and fixpoints in its JavaScript package and its generator scripts. Each model takes the form of
the code it models: loops and mutable objects where the source has them, proved against specifications that are written
apart from them.

- `GitBatch`, `BlobMachine`, `BlobFraming`, `BlobReader`: the reader of `git cat-file --batch` output (`writeBlobs`). A
  class with the source's handlers refines a machine that takes one byte at a time. Creating and writing a file are an
  oracle: a slot may refuse its file, or take only so many bytes.
- `HookFiles`: what the hook checks and says it could not read (`gather`), where a path goes (`target`), and `splitNul`.
- `PoolWorld`, `Pool`, `DepTasks`: the worker pool (`map`, `mapTasks`) over a world of workers, queues, a shared counter and
  a clock, any of which may move between any two reads of the main thread; and what its two callers make of errors.
- `CodecTables`, `BigCodec`, `CodecText`, `RustStrings`: the codec tables compiled from decoders into one flat list, a codec
  too big for it, that list as text, and the text as Rust string literals.
- `NameTable`, `RustBytes`: the front-coded table of character names, and the Rust literal it is written as.
- `DepTree`, `GoVendor`: the tree of dependency files (`isFile` against `under`), and the Go vendor fixpoint.
- `Bench`, `BenchPlaces`, `BenchRun`: benchmark runs that may be killed anywhere, in the middle of a write too, and started
  again, in one process and with workers.
- `ModuleOrder`: the order of the dashboard's modules, and what the script made of them computes.
- `ExportTrie`, `TrieWriter`: the names of a dyld export trie, and a writer of such tries.
- `UnicodeRuns`: which code points are assigned, as runs in base 36, and what is done to a text with them.
- `Report`: batches of findings, and the text report written line by line.
- `Common` (modules `Common`, `Numerals`, `Texts`): what they share.

`dafny verify dfyconfig.toml` checks all of it.

Where the code does not do what a reader of it may expect, the code is followed. In each of these the exact condition is
proved, and where the condition does not show it, a case that fails:

- `writeBlobs`: an error the process says after its output began, with the first blob in hand and nothing failed, fails
  every blob at once: the first may then be whole and failed, and its descriptor stays open
  (`BlobFraming.SpawnErrorAccounts`, `BlobFraming.SpawnErrorLeavesOpen`; js/src/hook.js:282-285). Nothing in `writeBlobs`
  kills, aborts or messages the process, so such an event is hypothetical.
- `mapTasks` is the same as running every task here if and only if `onError` makes nothing of the difference between an
  error and its name and message, up to an error that is thrown on anyway (`Pool.SpreadIsSequential`). For the tasks of
  js/src/deps.js:635-639 it does: an error thrown on is itself here, and a new one of the two strings for a worker's
  (`Pool.RaisesDiffer`, `DepTasks.TasksAnywhere`). For the other caller, js/src/project.js:55-57, it never matters
  (`DepTasks.ScanAll`).
- The text of the codec list reads back unless the list is empty, and a set's table unless it is empty or has an empty text
  (`CodecText.TextReadsBack`, `CodecText.TableReadsBack`).
- A codec's walk through the flat list is its decoder if and only if every row it can come to is within the rows' tag range,
  which nothing in the script asserts (`CodecTables.CjkTables`; scripts/make_codec_tables.py:139). A codec of three bytes a
  character whose rows are all different is accepted, and the tables written of it are wrong (`BigCodec.WriteBig`). This is
  under the like bound on the texts of several characters (`CodecTables.TextFits`).
- `pin` and `pinUnicode` agree on every text if and only if every code point below U+0378 is assigned, which the one relies
  on and the other does not (`UnicodeRuns.PinsAgree`).
- The benchmark counts starts, not kills (the comment at scripts/bench.py:255 speaks of kills): a release recorded at its
  third start was killed at both of the others if and only if no start of it found no worker
  (`BenchPlaces.ThirdStartMeans`, `BenchRun.KilledOnceThenNoWorker`).
- Runs that start a release use up its starts if and only if no release left to do has been started three times, as one is
  that was killed between its third start and its line (`Bench.SteadyIffFalls`, `Bench.ThirdKilledUsesUpNothing`); without
  that there is no bound on them (`Bench.KilledRunsAreUnbounded`).
- A run killed inside a write may leave files no later run can read: just when it left a part of OUT.attempts or of a line,
  or when something is put after a line whose newline is missing, as by any run that is not killed and in time, unless
  nothing is to do and that line stays last (`BenchRun.Run.Execute`, `BenchRun.KilledInWrite`,
  `BenchRun.KilledBeforeItsNewline`; scripts/bench.py:203-207, 233-237).

## Model

| member | source | states |
|---|---|---|
| BlobMachine.FeedAppend | js/src/hook.js:249-280 | how git's output is cut in two does not matter: the reader after one chunk and then the other is the reader after both at once, also with a header, a body or a newline cut |
| BlobMachine.ChunkIndependence | js/src/hook.js:249-280 | the same for any number of chunks: state, files, failures and the open descriptor are those of the whole output in one chunk |
| BlobMachine.FeedLineAndBody | js/src/hook.js:223-280 | a header line and any part of the body it announces leave the reader in that body with exactly those bytes written, whatever the bytes are |
| BlobMachine.FeedBody | js/src/hook.js:260-275 | any bytes of a body, newlines and header-like ones too, go to the file up to the first write that fails, and the body is counted down either way |
| GitBatch.HeaderFields | js/src/hook.js:138-140 | of a header git prints, the fields are the name, the type and the size for an object, and never three with a size for a missing or ambiguous one |
| GitBatch.DecimalReadsBack | js/src/hook.js:224 | a decimal size reads back as its number up to the largest safe integer, and as none above it |
| BlobFraming.ExactlyOnce | js/src/hook.js:212-297 | for any bytes in any chunks, stopping anywhere, and any creates and writes failing: at the end no descriptor is open, failures are in order with no index twice, and a blob is in `failed` if and only if its file does not have every byte its header announced |
| BlobFraming.CloseAccounts | js/src/hook.js:282-296 | closing a reader in any state that feeding reaches gives that accounting |
| BlobFraming.SpawnErrorAccounts | js/src/hook.js:282-296 | with an error of the process the accounting holds if and only if it is not the case that an error was said, the first blob was in hand (its header read) and nothing had failed |
| BlobFraming.SpawnErrorLeavesOpen | js/src/hook.js:282-285 | a stream after which it does not hold: the header of the one blob wanted |
| BlobFraming.Framing | js/src/hook.js:223-297 | for any objects (blobs, other kinds, missing and ambiguous names), any contents, any slots that refuse, and any prefix of what git prints in any chunks: the failures with their reasons, and the files with their bytes, are exactly those an independent reading of each object gives |
| BlobFraming.Reasons | js/src/hook.js:223-297 | of the same: for each blob its one failure, a collision, the system's words, not printed or stopped, by what its place on the disk and the bytes that came say, or none; and the bytes of its file |
| BlobFraming.AnyReasons | js/src/hook.js:223-297 | of any bytes at all: no failure but for such a reason of its own blob |
| BlobFraming.CopiedExactly | js/src/hook.js:223-297 | object i is in `failed` if and only if file i is not exactly its content; and with the whole output, if and only if it is no blob, its file could not be created, or its content could not be written |
| BlobFraming.DecimalsAreRead | js/src/hook.js:224 | what the framing asks of the reader of sizes is met by reading decimals |
| BlobReader.Reading.OnHeader | js/src/hook.js:223-247 | a header line: the same files, failures, phase and descriptor as the machine that takes a byte at a time |
| BlobReader.Reading.WriteSync | js/src/hook.js:263-265 | a write takes at least one of the bytes, or fails and takes none |
| BlobReader.Reading.WriteAll | js/src/hook.js:262-271 | the bytes of a body in as many short writes as it takes, or the first failure, as a byte at a time |
| BlobReader.Reading.OnData | js/src/hook.js:249-280 | a chunk of any size leaves the reader where the byte-at-a-time machine is after its bytes, and keeps the invariant |
| BlobReader.Reading.HeaderPart | js/src/hook.js:252-259 | the header's part of a chunk, with a header line gathered over chunks |
| BlobReader.Reading.BodyPart | js/src/hook.js:260-273 | the body's part of a chunk |
| BlobReader.Reading.NewlinePart | js/src/hook.js:274-279 | the newline after a body moves on to the next blob |
| BlobReader.Reading.OnClose | js/src/hook.js:281-297 | the end of the stream, with or without an error of the process |
| BlobReader.Reading.FailTheRest | js/src/hook.js:294 | every blob not printed fails, once, in order |
| BlobReader.WriteBlobs | js/src/hook.js:198-300 | nothing wanted, git missing, git not started, or all chunks read and the stream closed: every blob's failure and its reason, what is on the disk, and that no descriptor stays open but where the spawn error leaves one |
| HookFiles.SplitAtCuts | js/src/hook.js:126-135 | the loop over a buffer keeps exactly the parts between cuts that are asked for, in order |
| HookFiles.SplitNul | js/src/hook.js:126-135 | the nonempty pieces between zero bytes |
| HookFiles.NamesReadBack | js/src/hook.js:126-135 | any names with a zero byte after each read back as those names |
| HookFiles.Target | js/src/hook.js:144-158 | a path is refused if and only if a part between its slashes, of either kind, is `..`, or all are empty or `.`; otherwise the parts are the others, and are where walking the path leads, which never leaves the folder |
| HookFiles.PiecesAre | js/src/hook.js:126-135 | the pieces are what stands between cuts |
| HookFiles.Unique | js/src/hook.js:357-358 | each path once |
| HookFiles.Sort | js/src/hook.js:359-371 | which paths are checked, which are read as blobs, and which the copy refused |
| HookFiles.Add | js/src/hook.js:372-372 | what writeBlobs said is said of the paths of its blobs, with its reasons, after what was said before |
| HookFiles.BlobsAccounted | js/src/hook.js:281-297 | for any stream and any error of the process: the failures are in order and of wanted blobs, and of those not copied whole unless an error came with the first blob in hand |
| HookFiles.Gather | js/src/hook.js:357-373 | in a repository or not: every path that is no link or submodule is checked once; a checked path is in `failed`, and then once, if and only if its file could not be copied or, but for that error, its blob was not copied whole; and each has its own reason, the copy's or that of its blob |
| PoolWorld.World.Serve | js/src/pool-worker.js:19-35 | a worker takes its oldest request and posts one answer to it: what the task comes to, if the worker could start, or that it is unable; no other port changes |
| PoolWorld.HoldsLater | js/src/pool-worker.js:19-35 | whatever the workers do, what a port holds are its requests and answers to its own requests, in order |
| PoolWorld.PortLaterTransitive | js/src/pool-worker.js:19-35 | steps of workers add up to what is allowed between two readings of a port |
| Pool.Pool.Map | js/src/pool.js:83-125 | over any interleaving of workers: each task handed out was posted once, to one worker, in order, and nothing else was posted; each reply is to the task of its index; an answer is there if and only if a worker answered; if the pool is neither closed nor all unable, every task was answered; the pool is closed only past the time limit; and no answer of this call is left for a later one |
| Pool.Pool.Close | js/src/pool.js:127-134 | a closed pool stays closed |
| Pool.Pool.EveryUnable | js/src/pool.js:98 | whether no worker is able |
| Pool.Call.SendOne | js/src/pool.js:90-92 | a task is handed to one worker with fewer than two, and the accounts stay even |
| Pool.Call.Send | js/src/pool.js:88-94 | a worker is filled up to two tasks while there are any |
| Pool.Call.Take | js/src/pool.js:103-105 | taking an answer accounts for one task, or for none if no answer came, and keeps the invariant over what every worker holds |
| Pool.Call.Account | js/src/pool.js:105-110 | an answer is stored at its own index, once, or the worker is unable |
| Pool.Call.Poll | js/src/pool.js:101-112 | the answers of one worker and its next tasks |
| Pool.Call.HandOut | js/src/pool.js:95 | the first tasks of every worker |
| Pool.Call.PollAll | js/src/pool.js:101-112 | a round of the ports keeps the tasks held equal to those handed out and not answered |
| Pool.Call.Turn | js/src/pool.js:97-123 | a turn takes an answer, closes the pool past the limit, or uses up a bump of the counter or some of the time: the loop ends |
| Pool.Call.Collect | js/src/pool.js:97-123 | the loop ends with every task answered, the pool closed, or every worker unable; closed only if no answer came for longer than the limit |
| Pool.WindowsSend | js/src/pool.js:88-94 | that each worker holds at most two tasks, and its port exactly those, answered ones first, is kept by a send |
| Pool.WindowsTake | js/src/pool.js:106-107 | and by an answer, which is to the oldest task the worker holds |
| Pool.WindowsLater | js/src/pool.js:88-111 | and by anything the workers do meanwhile |
| Pool.OwnedSend | js/src/pool.js:90-92 | a worker's window holds exactly the unanswered tasks sent to it, in order, after a send |
| Pool.OwnedTake | js/src/pool.js:104-107 | and after an answer |
| Pool.AnsweredTake | js/src/pool.js:108-110 | what is stored is each answered task's own reply |
| Pool.NothingLeft | js/src/pool.js:97-125 | when every task is answered, every port is empty |
| Pool.CombinedIsSpread | js/src/pool.js:144-151 | what is put together is each task run in order, in a worker for those answered and here for the others |
| Pool.SpreadSays | js/src/pool.js:144-151 | task by task what that is, with no task more or less and none in another's place |
| Pool.SpreadIsSequential | js/src/pool.js:136-151 | whichever of the tasks workers answer, the result is that of running them all here, if and only if it does not matter where each is run: nothing tells its error from the one posted back or, when an error is thrown on in the end, it is thrown on anyway |
| Pool.AllThereTells | js/src/pool.js:136-151 | where nothing is thrown on here, that is so already if the result is the same with every task answered |
| Pool.RaisesDiffer | js/src/pool.js:136-151 | of any tasks whose first error thrown on is another one from a worker: the result differs exactly when a worker ran that task |
| Pool.LaterRaiseHidesIt | js/src/pool.js:136-151 | a task whose posted error is handled otherwise does no harm before one that throws on anyway |
| Pool.MapTasks | js/src/pool.js:142-151 | with or without a pool, whatever workers die, stall, are unable or answer out of order: as many values as tasks, in their order, each what its task gives or what its error stands for, as it is or as a worker posted it; or what the first task to throw on throws, exactly. So the result is that of running `local` and `onError` on each in turn where it does not matter where each is run |
| Pool.NoAnswers | js/src/pool.js:143 | without a pool every task is run here |
| DepTasks.OneTask | js/src/deps.js:635-639 | a task stands for the same here and in a worker, but for a search across files that fails by an error which is not the engine's: here that error is thrown on, from a worker a new one |
| DepTasks.ErrorSays | js/src/deps.js:46-47 | what a task's error stands for: by its name that a scan failed or that the engine gave up, and why; and which errors are thrown on, as what |
| DepTasks.TasksAnywhere | js/src/deps.js:635-639 | with whichever tasks answered, the result is that of running all here if and only if no search fails or the first that fails was run here; so it does not matter where tasks run if and only if none fails |
| DepTasks.ScanAll | js/src/project.js:55-57 | the scans of the source files: whatever the pool does, the values are those of running every scan here, each its findings or that the scan failed, by the error's name |
| DepTasks.Checks | js/src/deps.js:355-355 | the tasks of --deps, the search first with a pool: what each value says, in order, and what is thrown on; and what comes back is what running all here gives if and only if the search did not fail in a worker |
| CodecTables.TreeIsDecoder | scripts/make_codec_tables.py:201-221 | the tree of one, two and three bytes the script builds answers any bytes as the decoder does where a character begins |
| CodecTables.TreeOfThree | scripts/make_codec_tables.py:214-218 | its third level |
| CodecTables.CodesLater | scripts/make_codec_tables.py:195-198 | rows appended later leave the meaning of every entry written before as it was |
| CodecTables.CodesMeans | scripts/make_codec_tables.py:173-198 | an entry, read by its tag and walked through its rows, answers any further bytes as the node it was made from |
| CodecTables.RowCodes | scripts/make_codec_tables.py:191-198 | a row trimmed to lo..hi means its 256 nodes, also when it is shared with an equal row or is the empty row |
| CodecTables.OnlyError | scripts/make_codec_tables.py:193 | no other node has the entry of an error of length one, so trimming loses nothing |
| CodecTables.MeansIfRowsFit | scripts/make_codec_tables.py:169-198 | an entry means its node, for any further bytes, if and only if every row it can come to is within the rows' tag range |
| CodecTables.RowMissed | scripts/make_codec_tables.py:187-188 | of an entry that comes to a row past that range, some bytes that are answered otherwise |
| CodecTables.ShortListFits | scripts/make_codec_tables.py:139 | in a list no longer than the range every row is within it |
| CodecTables.TextFits | scripts/make_codec_tables.py:176-182 | the entry of a text of several characters means it if and only if its index leaves it below the errors' tag |
| CodecTables.FirstIs | scripts/make_codec_tables.py:151-221 | reading a character by one byte more each time comes to the decoder's first answer that is not to wait, whole: its text, or its error's length; four bytes and jamo exactly at the two exceptions; and to waiting when it waits after all of them |
| CodecTables.WalkReads | scripts/make_codec_tables.py:168-224 | walking the flat list from a codec's first-byte table comes to that for all bytes if and only if every row the walk can come to is within the rows' tag range |
| CodecTables.CodecTexts | scripts/make_codec_tables.py:178-180 | the texts of several characters of a codec's tree are exactly those its decoder gives |
| CodecTables.TooLongIs | scripts/make_codec_tables.py:214-218 | a codec is refused exactly when its decoder waits after three bytes that are at neither exception |
| CodecTables.WalkIsDecoder | scripts/make_codec_tables.py:168-224 | the walk is reading by one byte more each time, under the same condition; in a list short enough every row is within the range |
| CodecTables.Tables.MultiIndex | scripts/make_codec_tables.py:178-180 | a text's index in the list of several characters, no text twice |
| CodecTables.Tables.Entry | scripts/make_codec_tables.py:173-189 | the number written for a node means the node, and nothing written before changes |
| CodecTables.Tables.Entries | scripts/make_codec_tables.py:192 | a row's entries each mean their node |
| CodecTables.Tables.WriteRow | scripts/make_codec_tables.py:191-198 | the row at the offset returned means the nodes, new or shared |
| CodecTables.Tables.Trim | scripts/make_codec_tables.py:193-194 | the body between the first and the last entry that is not an error of length one, or (1, 0) when there is none |
| CodecTables.Tables.AddCodec | scripts/make_codec_tables.py:200-223 | a codec is refused if and only if a character of over three bytes begins; otherwise its table is in the list |
| CodecTables.CjkTables | scripts/make_codec_tables.py:168-224 | for any codecs with any decoders: refused if and only if one waits after three bytes; otherwise the texts kept are exactly those of several characters the decoders give, each once, and, these within their range, each codec's walk comes for all bytes to what its decoder answers if and only if the rows it can come to are within theirs, which they are in a list short enough |
| BigCodec.PairRow | scripts/make_codec_tables.py:191-198 | of a codec of 65536 rows, none with an entry to share: an entry of a first pair of bytes leads to that pair's row, of 258 numbers |
| BigCodec.NoneWithin | scripts/make_codec_tables.py:191-198 | no row of it begins within another |
| BigCodec.RoomFor | scripts/make_codec_tables.py:139 | so there is room for one row in 258 numbers of the tag range |
| BigCodec.NoTablesFit | scripts/make_codec_tables.py:168-224 | in no list do the tables of that codec fit, wherever they are in it |
| BigCodec.NoTexts | scripts/make_codec_tables.py:178-180 | its decoder gives no text of several characters, so none is listed and that bound is met |
| BigCodec.WriteBig | scripts/make_codec_tables.py:168-224 | the script accepts that codec, and some bytes are read otherwise from what it writes than by the decoder |
| CodecText.TokensExpand | scripts/make_codec_tables.py:367-379 | the tokens, expanded by the stated format, are the list: runs, distances that may be negative, errors and other entries |
| CodecText.PushWritten | scripts/make_codec_tables.py:369-379 | making the last token's run longer, or adding a token, in its written form |
| CodecText.ParseWritten | scripts/make_codec_tables.py:397-401 | each token reads back from its written form |
| CodecText.TextReadsBack | scripts/make_codec_tables.py:367-401 | the text reads back as the list if and only if the list is not empty |
| CodecText.EmptyTextReadsAsOne | scripts/make_codec_tables.py:379-401 | the text of the empty list is read as that of one entry |
| CodecText.WriteTokens | scripts/make_codec_tables.py:367-379 | the loop writes exactly those tokens |
| CodecText.ChunksJoin | scripts/make_codec_tables.py:484-485 | the text in pieces of a width joins to the text, no piece empty or too long |
| RustStrings.StringReadsBack | scripts/make_codec_tables.py:470-481 | the Rust string literal of any text reads back as it |
| RustStrings.ChunksReadBack | scripts/make_codec_tables.py:401-401 | a text written in lines of literals is what concat! makes of them |
| CodecText.TableReadsBack | scripts/make_codec_tables.py:426-435 | a set's table reads back if and only if it is not empty and has no empty text; distances are counted from the last single character, over entries of several and empty ones |
| CodecText.TableTokensRead | scripts/make_codec_tables.py:427-434 | its tokens, entry by entry |
| CodecText.WriteTable | scripts/make_codec_tables.py:426-435 | the loop writes exactly that text |
| CodecText.Ranges | scripts/make_codec_tables.py:227-240 | the runs of consecutive code points give back the code point of every index, in order, and no run could be joined to the one before |
| CodecText.ReadRangeBefore | scripts/make_codec_tables.py:238-239 | a run added later changes nothing of the indexes before it |
| NameTable.WordsJoin | scripts/make_pyparse_tables.py:243-244 | the words of a name joined are the name |
| NameTable.WordsCutAtBreaks | scripts/make_pyparse_tables.py:243-244 | words are cut after each space or hyphen and nowhere else |
| NameTable.BuildCode | scripts/make_pyparse_tables.py:258-262 | each of the words kept has a code that is read as it and cannot be taken for a letter or an end; any further word has none |
| NameTable.SharePrefix | scripts/make_pyparse_tables.py:271-276 | what is shared with the name before is the longest prefix of both that ends after a break |
| NameTable.WriteSuffix | scripts/make_pyparse_tables.py:279-283 | a suffix's words, as codes or letters |
| NameTable.WriteEntry | scripts/make_pyparse_tables.py:277-284 | the bytes of an entry, or a refusal if and only if its shared prefix does not fit a byte |
| NameTable.DecodeWords | scripts/make_pyparse_tables.py:295-305 | a suffix reads back up to its end, though a code's second byte may be the terminator's zero |
| NameTable.EntryReadsBack | scripts/make_pyparse_tables.py:278-306 | an entry decodes to its name after the name before it, and at a block's start after any name at all |
| NameTable.TableReadsBack | scripts/make_pyparse_tables.py:267-287 | every entry of the table reads back from where it starts, and its code point from its three bytes |
| NameTable.CpReadsBack | scripts/make_pyparse_tables.py:285 | a code point reads back from its place |
| NameTable.NamesReadBack | scripts/make_pyparse_tables.py:290-318 | any stretch of entries reads back in order |
| NameTable.BlockReadsBack | scripts/make_pyparse_tables.py:268-270 | each block starts at its recorded offset and decodes alone to its own names, whatever was read before |
| NameTable.HoldsMore | scripts/make_pyparse_tables.py:267-286 | one more entry keeps what is written so far a table of the entries so far |
| NameTable.EncodeNames | scripts/make_pyparse_tables.py:247-287 | for any names over the alphabet and any dictionary: refused if and only if some entry does not fit its bytes; otherwise the result is a table of the entries |
| NameTable.DecodeEntryAt | scripts/make_pyparse_tables.py:290-306 | decoding by index is decoding what is there; none if and only if it runs past the data or the dictionary |
| NameTable.CheckEncoding | scripts/make_pyparse_tables.py:309-318 | none of its assertions fails on a table the encoder made |
| RustBytes.LiteralReadsBack | scripts/make_pyparse_tables.py:325-341 | the byte string literal, read by the rules of Rust's byte strings (escapes, a backslash at a line's end taking the next line's blanks), is the bytes, for any bytes |
| RustBytes.RestReads | scripts/make_pyparse_tables.py:329-341 | the same from the middle of a line |
| RustBytes.NextToken | scripts/make_pyparse_tables.py:331-338 | one token more, on its line or with the line ended |
| RustBytes.RustLiteral | scripts/make_pyparse_tables.py:325-341 | the loop writes that literal |
| DepTree.ComesIsOnDisk | js/src/deps.js:102-120 | on any tree of folders, files and links: the search from an open folder comes to a path if and only if `onDisk` says yes to it |
| DepTree.FindsByEntry | js/src/deps.js:229-237 | what is found from a folder is what its entries account for |
| DepTree.PartsOf | js/src/deps.js:207-207 | the parts of a path below a folder are the folder's and its own |
| DepTree.WalkJoins | js/src/deps.js:212-218 | walking to a folder and on is walking the whole path |
| DepTree.OnDiskIs | js/src/deps.js:102-120 | yes for a path exactly when entries lead along its names from the root to a file, at most 512 folders down, no folder on the way excluded, nameless, `.`, `..` or pruned |
| DepTree.OnTheWay | js/src/deps.js:122-125 | the folders that may be pruned are what stands before a slash of the path |
| DepTree.WalkIsLead | js/src/deps.js:107-119 | the walk comes to a file exactly when entries lead there, no link followed |
| DepTree.DependencyTree.IsFile | js/src/deps.js:96-100 | true exactly for the files and manifests of the walk and the paths that lead to a file so; what is remembered stays true |
| DepTree.DependencyTree.OnDisk | js/src/deps.js:102-120 | true if and only if the parts lead through real folders, none barred, pruned or too deep, to a regular file |
| DepTree.DependencyTree.OpenFolder | js/src/deps.js:207-222 | the folder is opened if and only if no part is barred, no folder is pruned, it is not too deep, and it is a real one reached through no link |
| DepTree.DependencyTree.Search | js/src/deps.js:223-238 | the stack loop ends with exactly what is to be found from the folder |
| DepTree.DependencyTree.ReadFolder | js/src/deps.js:229-237 | what a folder's entries add to the files and to the stack |
| DepTree.DependencyTree.ReadEntry | js/src/deps.js:229-237 | one entry of it |
| DepTree.DependencyTree.Under | js/src/deps.js:204-240 | the result is in ascending order, each path a beginning of the next or less at the first character where they differ, and holds a path that begins with the folder and a slash if and only if `isFile` answers true for it |
| DepTree.DependencyTree.UnderIsOnDisk | js/src/deps.js:223-238 | below an open folder, what is found is what `onDisk` says yes to |
| DepTree.DependencyTree.NothingUnder | js/src/deps.js:208-222 | below a folder that is not opened, `onDisk` says no to everything |
| GoVendor.LeastIsUnique | js/src/deps.js:594-608 | there is one least set of folders closed under imports |
| GoVendor.ChainIsNamed | js/src/deps.js:598-606 | a folder at the end of a chain of imports is in the set |
| GoVendor.LeastIsByChains | js/src/deps.js:576-608 | a candidate folder is in it if and only if a chain of imports comes to it from a Go file of no candidate folder, one that can not be parsed importing all of them |
| GoVendor.NamedAre | js/src/deps.js:576-608 | a folder is named if and only if a vendored Go file is in it, and a chain of Go files comes to it: one in no folder that may be data, then each in one the file before imports, as one that can not be parsed imports all |
| GoVendor.Sort | js/src/deps.js:585-593 | which files wait in candidate folders and which are read first |
| GoVendor.ImportsOf | js/src/deps.js:596-601 | what the files read import, or all when one is refused |
| GoVendor.FilesOf | js/src/deps.js:603-607 | the files of the folders named in a round |
| GoVendor.NamedFolders | js/src/deps.js:594-608 | the worklist ends, with the least set, in whatever order folders are taken |
| GoVendor.CandidateIs | js/src/deps.js:577-584 | the candidate folder of a path: of a .go file, what is between the first tree it is below and its name, if a part of it is testdata or begins with _ or ., and the tree has a list of packages without it |
| GoVendor.KeptIs | js/src/deps.js:609-613 | the files are kept at exactly the places of those that are not such files of an unnamed folder, in their order |
| GoVendor.KeptIssuesIs | js/src/deps.js:609-613 | so are the findings, those of four rules about the reading of such a file dropped |
| GoVendor.GoVendorData | js/src/deps.js:564-615 | with the least set of folders named, a file is dropped if and only if it is a vendored Go file in a folder that may be data and is not named, and a finding if and only if it is of the reading of one; the others stay, once each, in their order |
| Bench.GrowsOn | scripts/bench.py:194-261 | what one stretch of runs and the next do to the two files adds up |
| Bench.PotentialBounds | scripts/bench.py:203-207 | the starts left are none if and only if every release is recorded, and never more than three for each |
| Bench.PotentialFalls | scripts/bench.py:203-207 | a run never adds to the starts left, and one that starts a release takes from them |
| Bench.SteadyIffFalls | scripts/bench.py:203-207 | every run that starts a release takes from the starts left if and only if no release left to do has been started three times |
| Bench.SteadyKept | scripts/bench.py:255-257 | a run not killed between a third start and its line leaves no release to do that was started three times |
| Bench.RunsAreBounded | scripts/bench.py:225-245 | over any sequence of such runs, killed and restarted anywhere: at most three for each release start one, and after that many every release is recorded |
| Bench.OrderedIs | scripts/bench.py:359-368 | the rewritten file has the same lines, as many times each, in the manifest's order |
| Bench.OrderedDistinct | scripts/bench.py:359-368 | no release twice, and the same releases |
| Bench.OrderedStable | scripts/bench.py:359-368 | the lines of one place, and those of none in the manifest, keep their order |
| Bench.OrderedByManifest | scripts/bench.py:359-368 | with a line for each release and no other, the lines are in exactly the manifest's order whatever order they were written in |
| BenchPlaces.ThirdStartMeans | scripts/bench.py:255-256 | a release recorded at its n-th start, n over 2, had n - 1 starts that came to nothing; at all of them the run was killed if and only if none of its starts found no worker, and at two or more if and only if at most n - 3 found none |
| BenchPlaces.FitsStep | scripts/bench.py:194-261 | what holds of each release's scans, starts and line is kept by a change of one release |
| BenchPlaces.FitsStart | scripts/bench.py:203-207 | and by a start |
| BenchPlaces.FitsScan | scripts/bench.py:256-261 | and by a scan, whose line says what it gave or raised |
| BenchPlaces.FitsAgain | scripts/bench.py:308-313 | and by a second scan, which the line then says |
| BenchPlaces.FitsKill | scripts/bench.py:255-261 | and by a kill, at which every open start comes to nothing |
| BenchPlaces.FitsOrdered | scripts/bench.py:359-368 | and by putting the lines in order |
| BenchPlaces.TracksSplit | scripts/bench.py:348-356 | once nothing waits, runs or is late, the releases left are exactly those not recorded |
| BenchPlaces.EndOfPush | scripts/bench.py:233-237 | a line put after one without its newline joins it, and OUT cannot be read again |
| BenchPlaces.EndOn | scripts/bench.py:233-237 | how OUT ends after some lines and then more is how it ends after all of them |
| BenchPlaces.LastStays | scripts/bench.py:359-368 | putting the lines in order leaves the last one last if and only if none is of a later place |
| Bench.ThirdUsesUpNothing | scripts/bench.py:255-257 | of any release started three times and not recorded: the next run that starts it takes nothing |
| Bench.ThirdKilledUsesUpNothing | scripts/bench.py:255-257 | the least case of it: one release |
| Bench.KilledRunsAreUnbounded | scripts/bench.py:255-261 | of runs each killed between a start and its line there is no bound |
| BenchRun.Run.Start | scripts/bench.py:203-207 | a release's starts are one more, and nothing else changes |
| BenchRun.Run.Write | scripts/bench.py:233-237 | a line is added, to its end or to just before its newline, and OUT ends accordingly |
| BenchRun.Run.Die | scripts/bench.py:255-261 | a kill, maybe in the rewriting of OUT.attempts: each open start is counted as come to nothing |
| BenchRun.Run.OneInProcess | scripts/bench.py:255-261 | one start more; a release started for the third time gets a timeout's line and no scan, any other one scan and one line. Stopped at any point of it, in a write too: the lines, the starts, the counts of scans and of starts come to nothing, whether OUT.attempts was cut, and how OUT ends are each stated for that point |
| BenchRun.Run.Finish | scripts/bench.py:255-261 | the same from its start on, for each point |
| BenchRun.Run.NextInProcess | scripts/bench.py:252-261 | one turn of the loop: time up, killed, or one release more recorded |
| BenchRun.Run.InProcess | scripts/bench.py:248-261 | run to its end every release given is recorded; killed or out of time, only lines and starts were added |
| BenchRun.Run.Begin | scripts/bench.py:301-307 | a waiting release is not started, if the run was stopped or time is up, and then no start is counted; otherwise it is started, and at its third start has a timeout's line instead of running |
| BenchRun.Run.Answer | scripts/bench.py:308-326 | a running release ends with a line or out of time, and is scanned once more; or with no worker to be had, and its start is counted as lost |
| BenchRun.Run.Route | scripts/bench.py:348-356 | a line is written, a release out of time waits, one not started is left |
| BenchRun.Run.ScanAgain | scripts/bench.py:301-313 | run again alone, a release is scanned again and has a line, or is left |
| BenchRun.Run.Kill | scripts/bench.py:338-338 | killed with releases anywhere, in the rewriting of OUT.attempts or not, and in a line, before its newline or earlier, or in none: what each leaves of the files and the counts; no release is lost, none twice recorded |
| BenchRun.Run.KillAnywhere | scripts/bench.py:338-338 | the same wherever the kill falls |
| BenchRun.Run.Next | scripts/bench.py:331-334 | whatever happens next, no release is lost, and fewer wait, run or are ready |
| BenchRun.Run.HandOut | scripts/bench.py:328-338 | in any order of answers every release ends written, late or left, and the loop ends |
| BenchRun.Run.RunAgain | scripts/bench.py:339-346 | every late release ends written or left |
| BenchRun.Run.InWorkers | scripts/bench.py:276-291 | every release is recorded or in `left`, never both, `left` in order; recorded all when a worker could be started and time was not up |
| BenchRun.Run.Releases | scripts/bench.py:225-242 | what is not recorded yet, in workers and then in this process: when done, all are recorded |
| BenchRun.Run.Execute | scripts/bench.py:225-245 | any run, killed anywhere, keeps one line at most for a release, each of a release that was scanned or started a third time; each line of a release started at most twice is what its last scan gave or the beginning of what it raised, by whether it raised, and any other the harness timeout. It does nothing if and only if a file cannot be read; it is killed or out of time only if it found so, and is done otherwise. Not killed and in time, it leaves files that can be read if and only if OUT ended in a newline or else nothing is to do and its last line stays last. In any case they can be read after it if and only if they could before, no kill left a part of a write, and nothing was put after a line without its newline. It reports completion if and only if every release is recorded, and then the lines are in the order of the manifest |
| BenchRun.Run.InOrder | scripts/bench.py:359-368 | the file is replaced whole by its lines in order; a line without its newline joins the one put after it |
| BenchRun.ReadsOn | scripts/bench.py:225-245 | whether the files can be read after one stretch of a run and then the next |
| BenchRun.NoWorkerFor | scripts/bench.py:315-322 | a run that finds no worker leaves the release, one start further |
| BenchRun.KilledOnceThenNoWorker | scripts/bench.py:255-256 | a release killed once, then left for want of a worker, is recorded as a timeout at its third start without having been scanned |
| BenchRun.NothingAdded | scripts/bench.py:225-245 | the last line of OUT stays the last one before the sorting if and only if no line is added; and none is when all was recorded |
| BenchRun.KilledInWrite | scripts/bench.py:203-207 | killed in the rewriting of OUT.attempts, or with some of a line written: the files cannot be read, and a later run does nothing |
| BenchRun.KilledBeforeItsNewline | scripts/bench.py:233-237 | killed between a line and its newline: the next line written makes OUT one that cannot be read |
| ModuleOrder.OrderedIsAcyclic | scripts/make_dashboard.py:164-182 | an order with imports first rules out any reachable cycle and any reachable module that cannot be read |
| ModuleOrder.ChainGoesBack | scripts/make_dashboard.py:164-182 | a chain of n imports goes back at least n places |
| ModuleOrder.Orderer.Visit | scripts/make_dashboard.py:168-179 | a visit orders the module after all it imports, or gives a real cycle or a module that cannot be read, and ends on any graph |
| ModuleOrder.Orderer.VisitAll | scripts/make_dashboard.py:174-179 | the modules it imports first, then itself |
| ModuleOrder.Order | scripts/make_dashboard.py:164-182 | an order comes back if and only if no cycle is reachable and every reachable module reads; it holds exactly the reachable modules, each once and after all it imports, the entry last; an error names a real cycle or a real unreadable module |
| ModuleOrder.NumberAll | scripts/make_dashboard.py:187 | M$k is the k-th module of the order |
| ModuleOrder.WriteLines | scripts/make_dashboard.py:192-197 | the lines for a module's imports; one with no names writes none |
| ModuleOrder.WriteReturns | scripts/make_dashboard.py:198-203 | what a module's function returns |
| ModuleOrder.LinesBind | scripts/make_dashboard.py:192-197 | a name is bound to module k, or to what it gives under a name, by a line exactly when an import binds it so to the module at k |
| ModuleOrder.ReturnsGive | scripts/make_dashboard.py:198-203 | what is returned is, export by export, under its name, the local value or what the module meant gives under the other name |
| ModuleOrder.WriteSection | scripts/make_dashboard.py:190-210 | a module's section: its lines and what it returns, with the numbers of the order |
| ModuleOrder.BuildScript | scripts/make_dashboard.py:185-211 | a section for each module of the order, which binds and returns the names its imports and exports say |
| ModuleOrder.SectionReads | scripts/make_dashboard.py:190-203 | every M$j read in module i is the constant of the module meant, and j < i |
| ModuleOrder.ScriptLinks | scripts/make_dashboard.py:185-211 | run from top to bottom the script never reads a constant before it is set, and each module gets the values of the modules it imports |
| ModuleOrder.LinkedOnce | scripts/make_dashboard.py:185-211 | no other values fit the modules' imports: the script means what the modules mean |
| ExportTrie.UlebReadsBack | scripts/check_native_library.py:357-367 | an unsigned LEB128 number (DWARF Version 5, section 7.6) reads back, with anything after it |
| ExportTrie.ReadNumber | scripts/check_native_library.py:357-367 | the loop reads that number or finds the trie cut short |
| ExportTrie.ReadEdge | scripts/check_native_library.py:386-390 | a label up to its zero byte, and the offset after it |
| ExportTrie.PushChildren | scripts/check_native_library.py:383-391 | every edge of a node is put on the stack with its prefix, or the trie is cut short |
| ExportTrie.Visit | scripts/check_native_library.py:378-391 | one node, its name and its children |
| ExportTrie.NamesSpell | scripts/check_native_library.py:381-382 | a name is its bytes: an ASCII one its character, any other U+FFFD |
| ExportTrie.ApartOn | scripts/check_native_library.py:373-391 | the ways seen and the ways waiting stay apart |
| ExportTrie.CoversOn | scripts/check_native_library.py:373-391 | every way through the trie is seen or waits |
| ExportTrie.TrieNames | scripts/check_native_library.py:370-392 | ends on any bytes; returns if and only if every node the root leads to reads and is come to in one way only; the names are then exactly the labels on the ways to nodes where a name ends, spelt byte by byte |
| ExportTrie.NodeReadsBack | scripts/check_native_library.py:378-391 | a node written in the format reads back |
| ExportTrie.WrittenReadsBack | scripts/check_native_library.py:370-392 | a prefix tree written as a trie has that tree's words, and is accepted if and only if no two nodes are at one offset |
| TrieWriter.TrieHolds | scripts/check_native_library.py:370-392 | the bytes written for a tree, with offsets of enough bytes, hold it |
| TrieWriter.ApartWhenPlaced | scripts/check_native_library.py:370-392 | no two of its nodes are at one offset |
| TrieWriter.PlacedWords | scripts/check_native_library.py:370-392 | placing a tree changes none of its words |
| TrieWriter.EnoughBytes | scripts/check_native_library.py:357-367 | offsets of enough bytes there are for any tree |
| TrieWriter.EveryTreeHasATrie | scripts/check_native_library.py:370-392 | for every tree of names with under 256 edges a node and no zero byte in a label there is a trie that is accepted, with exactly its words |
| TrieWriter.WrittenWords | scripts/check_native_library.py:370-392 | the trie written for a tree is accepted and has its words |
| TrieWriter.ReadWritten | scripts/check_native_library.py:370-392 | what `_trie_names` returns of it are the tree's names, spelt byte by byte |
| UnicodeRuns.RunsOf | scripts/make_unicode_tables.py:145-154 | the runs expand to the table they were made of, only the first maybe empty |
| UnicodeRuns.RunsAreUnique | scripts/make_unicode_tables.py:145-154 | a table has one such list of runs |
| UnicodeRuns.WriteNumber | scripts/make_unicode_tables.py:136-142 | the digits of a number in base 36 |
| UnicodeRuns.TextReadsBack | scripts/make_unicode_tables.py:55-56 | the text of the runs reads back |
| UnicodeRuns.Unassigned | scripts/make_unicode_tables.py:52-61 | the loop reads the ranges of any text of lower-case numbers a blank apart, and fails at any other token |
| UnicodeRuns.RangesSay | scripts/make_unicode_tables.py:52-61 | the ranges are in order and apart, and hold exactly the code points the runs leave out |
| UnicodeRuns.Assigned | scripts/make_unicode_tables.py:108-112 | the binary search answers whether a code point is in no range |
| UnicodeRuns.TableAnswers | scripts/make_unicode_tables.py:52-72 | for any table of what is assigned, written and read back, each code point is in a range if and only if the table leaves it out |
| UnicodeRuns.Ask | scripts/make_unicode_tables.py:52-72 | from a table through its text to the answer for a code point |
| UnicodeRuns.PinSays | scripts/make_unicode_tables.py:75-117 | what each form makes of each code point, in its place |
| UnicodeRuns.PinIs | scripts/make_unicode_tables.py:75-81 | given all below U+0378 assigned, both modules replace exactly the unassigned code points |
| UnicodeRuns.PinOnce | scripts/make_unicode_tables.py:75-81 | pinning keeps the length, leaves only assigned code points, and pinning again changes nothing |
| UnicodeRuns.PinsAgree | scripts/make_unicode_tables.py:75-117 | the Python and the JavaScript form agree on every text if and only if every code point below U+0378 is assigned |
| UnicodeRuns.PinText | scripts/make_unicode_tables.py:75-81 | the table built from the text's own code points replaces exactly the unassigned ones from U+0378 on |
| Report.Batches | js/src/report.js:39-51 | the ranges are consecutive, nonempty and cover the list; each is within 2000 items, and within the bound on characters or a single item, and could not have taken one more |
| Report.BatchesJoin | js/src/report.js:61-61 | the batches of the findings one after the other are the findings |
| Report.SplitOn | js/src/report.js:201-202 | of a text split in two, only the last line of the first part is still open |
| Report.LinesAre | js/src/report.js:198-206 | the lines of a text have no newline, and joined by newlines are the text but for a newline at its end |
| Report.PrintReport | js/src/report.js:198-206 | the lines are those of the whole text, however it is cut into pieces |

## Left out

- Findings, rules, the Rust engine and every call into it: the engine's answers are parameters (`goImports`, what a mode
  says to do with a path, a worker's task).
- The operating system: git, files, threads and clocks are the small models above; permission errors, and a path too long
  for the system, which only adds a note, are not modelled.
- BlobReader.Reading.WriteSync: how many bytes a file takes is fixed in advance; a disk that fails and then takes more is
  not modelled, as the file is closed at its first failure.
- BlobReader.WriteBlobs: the names written to git's input, and how the reading ends in the event loop.
- HookFiles.Target: the folders made on the way, and the check of their real path (`createFile`), are the slot's refusal.
- HookFiles.Gather: how the paths named on the command line become paths of the repository, and the errors thrown before any
  is sorted, are not modelled. Outside a repository no mode is known, and the engine is taken to name no blob.
- PoolWorld.World.Serve: a worker's set-up is a fixed answer, and a worker that dies is one that is never run again. The bump
  of the counter is a step of its own (`Go`), which may come at any time after the request was posted.
- Pool.Pool.Close: the ports and the workers are not ended; nothing is read from them any more.
- PoolWorld.World.Wait: the counter is a number without bound, where the source's wraps at 32 bits.
- Pool.MapTasks: a worker's task is taken to compute what the task does here, its error posted as its name and message. Which
  of the tasks workers answer is any subset in `Pool.SpreadIsSequential`, though few workers may not bring about each one;
  `DepTasks.Checks` says for each subset whether the result is the same.
- CodecTables.CjkTables: the decoders are any functions; the special cases of gb18030 and EUC-KR are part of a codec's
  description, and the assertions of `outcome` on Python's decoders are taken to hold.
- NameTable.EncodeNames: the dictionary is any list of words in any order; ranking words by how much they save
  (scripts/make_pyparse_tables.py:251-257) changes only the size. A word given twice is coded as the source's map would.
- GoVendor.GoVendorData: reading modules.txt, and what `listed` is of it, are part of the description of the vendor trees.
- DepTree.DependencyTree.Under: the tree does not change meanwhile, and folders can be read.
- BenchRun.Run.Execute: the manifest's ids are unique, as the script takes them to be; two runs at once are not modelled. A
  line's content is any text; neither a part of it nor two of them put together is a line that can be read. What a scan
  says and whether there is a worker may be anything.
- BenchRun.Run.InOrder: sorting is a specification, of which the order, the permutation and the stability are proved; the
  temporary file is left out, as it replaces OUT at once.
- ModuleOrder.Order: reading a module's text (its import and export statements by regular expression) is a given; the
  crates of the WebAssembly build (`_crate_dirs`), a smaller search of the same kind, are not modelled.
- ModuleOrder.BuildScript: the sections are values, not text; a module's body is any function of the values it reads.
- ExportTrie.ReadNumber: bits are put together by addition, the same where they do not overlap.
- UnicodeRuns.Unassigned: Python's int also reads upper-case, signed and underscored numbers, and split drops runs of blanks;
  the script writes none of these.
- UnicodeRuns.PinText: a text is its code points; JavaScript's surrogate pairs are not modelled.
- Report.Batches: an item is the number of characters of its JSON.
- The Unicode and codec data themselves, the Hangul names and the EUC-KR jamo, which are finite; charmap tables and the
  ISO-2022 sets' discovery.
- Header checks of ELF, Mach-O and PE files, wheels, licenses, the dashboard's page, SARIF and HTML: single branches, or the
  engine's output.
- The scripts that fetch data, make bundles or snapshots, and the Rust run tables, which would add easier members of the same
  kinds.
