# Crashinfo, verified

Crashinfo is run by the kernel with a core dump on its standard input. It works out the names of
two outputs, opens them (creating directories and counting through a sequence of names where that
is asked for), puts chains of filters behind them, copies the dump to one of them and to a stack
unwinder, and writes a YAML description to the other. This project models the five parts of it
that are hard to get right, and proves what they promise.

- **Output names** (`Expansion`, `ExpansionMeaning`, `InPlace`, `SequenceNames`). One buffer holds the raw pattern at
  its front; the expanded name is written from its end, right to left, and escapes are recognised
  by the parity of the `@` characters to their left, in the same buffer. The proof relates this to
  a tokenizer that reads from left to right, and says exactly when the name is rejected as too
  long.
- **Opening an output** (`FileSystem`, `Directories`, `OpenRetry`, `OutputProperties`,
  `PolicyProperties`, `NameDepth`, `RunProperties`). The "restart" and "reopen" loops with four collision policies, against a file
  system that other processes may change before every call; what one run and several runs leave
  behind.
- **Copying** (`Channels`, `ChannelCounts`, `Feeding`, `Duplication`, `WarmUpProperties`). Standard input goes to the core output and
  to the unwinder's pipe through `safe_read()` and `safe_write()`. Every call to the kernel is
  answered by an arbitrary script of short counts, interruptions, "would block" and errors, and
  the non-blocking warm-up hands over part way through a buffer.
- **Filters** (`Processes`, `ChainOutcomes`, `FilterChain`, `ChainProperties`, `SetupProperties`,
  `OutputPair`).
  Descriptor tables of this process and of its children, the construction of a chain, every error
  exit, `close_output()`, and the life of both outputs in `main()`.
- **Configuration** (`Config`, `ConfigParser`, `ConfigLists`, `LineReader`, `ConfigFile`,
  `LineMeaning`, `ValueMeaning`, `ConfigHistory`, `ConfigPrinting`, `ConfigRoundTrip`,
  `OptionsRoundTrip`), **maps** (`MapsFile`, `MapsProperties`, `MapsAnyText`) and **YAML** (`Yaml`, `YamlReader`). The parser cuts strings in the line
  buffer and appends to linked lists; the maps reader rewrites lines of `/proc/PID/maps` in place
  and feeds them to it; `log_conf()` prints what the parser reads back; the escaper is undone by a
  YAML reader.

Loops over buffers, descriptors and streams are methods with the source's state; each is proved
against a function on values, and what the source promises is proved about that function.

Results that differ from what one may expect of the code:

- `info_exists_seq = n` uses the counters 0 to n - 1, as `t/stream_seq.t` has it; the manual page
  (`crashinfo.1:119-122`) says 0 to n, and writes `@P` for what the code calls `@p`.
- A sequence without limit and without a live `@Q` never ends once its one name exists:
  `OutputProperties.EndlessSearch` has the exact condition, `OutputProperties.EndlessExample` such
  a name.
- A name with `@e` or `@E` may be rejected although it would fit (`Expansion.SpuriousRejection`),
  by at most two characters (`Expansion.RejectionIsTight`); `InPlace.ExpandInPlace` has the exact
  condition.
- If the first `pipe2()` of a chain fails, `output_fd` keeps the number of a closed descriptor,
  which is closed again in the end: exactly then (`OutputPair.BadCloseIff`), as in
  `OutputPair.ClosedTwice`.
- If a filter other than the last gets no memory or no process, the ends of its pipes stay open:
  exactly then (`OutputPair.PipeLeftIff`), as in `OutputPair.LostPipe`.
- The return value of `safe_write()` is not looked at while copying, so an error that does not
  last leaves a hole in what a sink holds, as in `Feeding.PassingErrorLeavesHole`. A sink never
  has a hole if and only if, behind the first error in its script that passes, it takes nothing
  any more (`Feeding.NoHoleIffIntact`); it always holds everything if and only if its script has
  no error at all (`Feeding.AllArrivesIffTakesAll`).
- The log of a configuration without mappings has `proc_maps = ~`, which the parser refuses, and
  addresses from 2^63 on are cut off; `ConfigRoundTrip.RoundTrip` is an equivalence for that
  reason.
- The assertion of the maps reader holds for every line in the layout of proc(5), but not for
  lines without the separators (`MapsProperties.AssertionNeedsSeparators`).

## Model

| member | source | states |
|---|---|---|
| InPlace.ExpandInPlace | main.c:282-337 | the in-place loop succeeds if and only if every mixed form of the pattern fits in the buffer (with the copy loop's slack), and then the C string at `path + j` is the left-to-right expansion of the whole pattern, for every pattern, pid, counter text and executable |
| InPlace.IsEscape | main.c:115-120 | the parity of the run of `@` to the left says exactly whether reading from the left ends inside an unfinished escape |
| InPlace.TokenWritten | main.c:282-336 | aliasing invariant: writing a token keeps `i <= j`, leaves the unread front of the buffer as it was, ends on a token boundary, and the back is the expansion of what was read |
| InPlace.TokenTooLong | main.c:291-303 | a token that does not fit in front of what is written refutes that the pattern fits |
| InPlace.ExpandToken | main.c:285-335 | every branch of the switch keeps the aliasing invariant, or the pattern does not fit |
| InPlace.WriteText | main.c:291-305 | the text of `@p` and `@Q` goes in front of what is written, and `too_long` is taken exactly when it would reach below the `@` |
| InPlace.CopyExe | main.c:310-329 | the character loop copies exactly the base name, or the whole name with `!` for `/`, and `too_long` is taken exactly when one of its room checks fails |
| InPlace.SlackOfExecutable | main.c:312-321 | how much more room than the text itself the checks ask for |
| InPlace.ExpandTerminated | main.c:282-290 | the terminating NUL is carried along, also behind a lone trailing `@` |
| Expansion.ExpandSplits | main.c:282-336 | the expansion can be cut at every token boundary |
| Expansion.FitsBoundsMixedForms | main.c:291-328 | success bounds the raw prefix plus expanded suffix, and the whole name, at every boundary |
| Expansion.RejectionIsTight | main.c:312-328 | a rejected pattern has a mixed form beyond the buffer, or one within two characters of it at an `@e` or `@E` |
| Expansion.SpuriousRejection | main.c:312-321 | a name of two characters that is rejected in a buffer of five, and meets the largest slack |
| Expansion.RunOfEscapes | main.c:285-290 | an even run of `@` halves, whatever follows it |
| Expansion.BaseNameIsLastPart | main.c:318-321 | `@e` stands for what follows the last slash |
| Expansion.BangNameAt | main.c:318-326 | `@E` stands for the path name with every slash, and nothing else, replaced |
| ExpansionMeaning.TextMeans | main.c:279-308 | at every boundary, `@p` stands for the process id, `@Q` for the counter, `@@` for one `@`, and an unknown letter for itself with its `@` |
| ExpansionMeaning.NameMeans | main.c:310-317 | `@e` stands for what follows the last slash of the executable |
| ExpansionMeaning.PathMeans | main.c:319-329 | `@E` stands for the whole path with its slashes as `!` |
| ExpansionMeaning.OutputNameMeans | main.c:279-305 | in the name for a counter, the text of `@p` is the decimal process id, and that of `@Q` has the value of the counter, in the width of the last one or, without a limit, in its own |
| ExpansionMeaning.WidthExamples | t/stream_seq.t:31-41 | the widths of the counters that the test expects |
| Text.IntLenIsDigitCount | main.c:123-126 | `intlen()` is the number of decimal digits |
| Text.IntLenMonotone | main.c:123-126 | `intlen()` is monotone |
| Text.MemCpy | main.c:297-305 | copies the text and nothing else |
| SequenceNames.SequenceTextIsCounter | main.c:280-305 | for every counter that can be reached, the `seq_len` characters that are copied are the whole zero-padded number |
| SequenceNames.NamesAreInjective | main.c:299-305 | two counters give the same characters between the slashes only if they are equal, for fixed and variable width and any number of live `@Q` |
| SequenceNames.NameIgnoresCounter | main.c:299-309 | without a live `@Q` the name does not depend on the counter |
| FileSystem.FlattenComponents | main.c:357-357 | path names that are looked up alike have the same characters between the slashes |
| FileSystem.MkdirKeepsWellFormed | main.c:100-100 | creating a directory keeps the tree closed under parents and touches no file |
| FileSystem.OpenKeepsWellFormed | main.c:341-358 | opening keeps the tree closed under parents and touches no directory |
| Directories.MakePath | main.c:93-111 | whatever else happens to the tree, the buffer is restored; in a quiet tree the result is that of `MakeDirs` on the C string |
| Directories.MakeDirsMakesAncestors | main.c:93-111 | `make_path()` succeeds if and only if every missing ancestor can be created, and then adds exactly the missing proper ancestors |
| Directories.MakeDirsStops | main.c:99-105 | where it fails it leaves exactly the missing ancestors before the first obstacle |
| Directories.NoEntryOnlyOnce | main.c:370-374 | the `open()` after a successful `make_path()` cannot report ENOENT again |
| OpenRetry.OpenName | main.c:357-380 | at most two `open()` and one `make_path()` for one name against any environment; in a quiet tree the result is that of `OpenOrMake` |
| OpenRetry.TryName | main.c:278-380 | one round of the "restart" loop: expansion, opening and error handling |
| OpenRetry.OpenOutput | main.c:264-380 | against any environment and for any output, set or not, at most n + 1 (or 2) `open()` on the name and one `make_path()`, and however many rounds are watched, not more `open()` than rounds, and one; names that are not absolute fail before any call; in a quiet tree the outcome is that of the search, in time, and an endless search is never done |
| OpenRetry.RefusedIffExists | main.c:348-369 | an exclusive open is refused with EEXIST exactly when the name exists and can name a file, and has changed nothing then |
| OpenRetry.TakenIffExists | main.c:366-367 | a counter is skipped exactly when its name fits and exists |
| OpenRetry.DistinctNames | main.c:299-305 | distinct counters name distinct files |
| OpenRetry.Pigeonhole | main.c:366-367 | not more counters can be taken than the tree has entries |
| OpenRetry.ReachedWithinBound | main.c:366-367 | the counter stays below the limit or, without one, at or below the number of entries |
| OutputProperties.SearchStops | main.c:366-369 | the search ends at the first counter that is not taken, or behind the last one |
| OutputProperties.EndlessSearch | main.c:366-367 | a search without limit comes to an end if and only if the pattern has a live `@Q` or its one name does not exist yet, and then within as many names as there are entries, and one |
| OutputProperties.EndlessExample | main.c:366-367 | a name without counter that exists is taken for ever |
| OutputProperties.CreatesIffReady | main.c:348-374 | a new file is created exactly when the name is free and its directory is there or can be made |
| OutputProperties.OnlyTheOutputChanges | main.c:341-380 | under every policy no file but the output changes: it is appended to, emptied or created as the policy says |
| PolicyProperties.WritingPolicies | main.c:341-380 | under append and overwrite the name is opened if and only if it fits, can name a file and its directory is there or can be made, and fails otherwise |
| PolicyProperties.KeepPolicy | main.c:359-371 | under keep the null device takes the place of an output if and only if the name exists and can name a file and the null device can be opened, and then nothing changes; a name that is free is opened |
| PolicyProperties.NoRoomFails | main.c:287-334 | a name that does not fit fails under every policy, and nothing changes |
| PolicyProperties.OpenedFile | main.c:341-356 | an output that was opened is a file: its old content under append, empty otherwise |
| OutputProperties.LeastFreeSlot | main.c:348-369 | a run in sequence mode creates exactly the file of the least unused counter |
| OutputProperties.NoFreeSlot | main.c:366-369 | without such a counter the run fails and touches no file |
| OutputProperties.FailsIffFull | t/stream_seq.t:28-29 | a run with limit n fails if and only if all n names exist |
| NameDepth.EquallyDeep | main.c:299-305 | all names of a sequence have equally many components, so none lies in the directory of another |
| RunProperties.ExistsAfterFirst | t/stream_seq.t:18-25 | after m runs exactly the counters below m exist |
| RunProperties.SuccessiveRuns | t/stream_seq.t:17-29 | m runs leave exactly the names 0 to m - 1, with or without `mkdir`; run m + 1 creates name m, and fails if m is the limit |
| Channels.SafeWrite | main.c:498-516 | the loop with its offset computes `SafeWriteResult` for every script |
| Channels.SafeWriteDelivers | main.c:498-516 | the bytes reported are the bytes that arrive, in order, once |
| Channels.SafeWriteAllOrBroken | main.c:502-515 | a blocking sink whose errors last takes everything, or is broken from then on |
| ChannelCounts.SafeWriteCounts | main.c:498-516 | for every script, the bytes that are taken before the first error that ends the loop, and what is returned |
| Channels.SafeRead | main.c:478-496 | the loop with its offset computes `SafeReadResult`, and the buffer holds what was read |
| Channels.SafeReadConsumes | main.c:478-496 | exactly the bytes reported leave the stream, and 0 is reported only at its end |
| Channels.ReadableNeverFails | main.c:482-495 | without read errors, interruptions are not seen by the caller |
| ChannelCounts.SafeReadCounts | main.c:478-496 | for every script, the bytes that are offered before the first read error, cut off at the stream and at what was asked for; and when the error is returned |
| ChannelCounts.ShortReadIff | main.c:482-495 | less than what was asked for and is there comes back if and only if a read error is met before |
| ChannelCounts.ReadableReadsAll | main.c:482-495 | without read errors, everything that was asked for and is there, in however small pieces it comes |
| Duplication.WarmUpLoop | main.c:597-626 | the warm-up loop, for every round in which the process may be found |
| Duplication.WarmUpDelivers | main.c:597-626 | however the warm-up ends, `buf_write` is exactly what has arrived in the pipe |
| WarmUpProperties.WarmUpStops | main.c:597-626 | the warm-up makes at least one write, and before the process is found it ends exactly behind the first error other than a full pipe, or the fiftieth full pipe in a row |
| WarmUpProperties.UnsentIffStopped | main.c:598-613 | after any write something is left unsent if and only if that write met an error or a full pipe before the end of the data |
| WarmUpProperties.WarmUpSendsAll | main.c:597-613 | a pipe that takes everything has received the whole first buffer, whenever the process is found |
| WarmUpProperties.FirstBufferIsFull | main.c:593-593 | the first buffer is as full as the stream allows |
| WarmUpProperties.BuffersAreFull | main.c:686-694 | without read errors, every buffer but the last is full |
| Duplication.HandOver | main.c:674-680 | the core output gets the whole first buffer, the pipe its unsent tail |
| Duplication.CopyLoop | main.c:686-694 | each sink receives what it would receive if the other were not there |
| Duplication.Duplicate | main.c:583-694 | the three phases together, with and without the pipe and the thread |
| Duplication.ChunksJoin | main.c:686-694 | what the copy loop reads, joined, and what is left is the stream |
| Duplication.ReadsToTheEnd | main.c:686-694 | a stream without read errors is read to its end |
| Feeding.LastingIsIntact | main.c:686-694 | errors that last never leave a hole in a blocking sink |
| Feeding.FeedDelivers | main.c:686-694 | a blocking sink whose errors last holds a prefix of what it was given, and all of it unless it broke |
| Feeding.NoHoleIffIntact | main.c:686-694 | a sink holds a prefix of everything it may be given if and only if its script has no error that passes before the sink takes data again |
| Feeding.AllArrivesIffTakesAll | main.c:686-694 | it always holds all of it if and only if its script has nothing but interruptions |
| Feeding.HoleFound | main.c:686-694 | for every other script, chunks of one byte that leave a hole |
| Duplication.InfoReceivesPrefix | main.c:597-694 | warm-up, tail and copy loop together send a prefix of what was read, nothing lost or repeated at the hand-over |
| Duplication.EverythingIsRead | main.c:593-694 | the first buffer and the chunks are a prefix of standard input, and all of it without read errors |
| Duplication.NoHolesIffIntact | main.c:593-694 | core output and pipe hold prefixes of what was read, however it was cut and whenever the process was found, if and only if their scripts have no such error; the non-blocking warm-up needs no condition |
| Duplication.StreamConservation | main.c:583-694 | whatever the script of the stream, each sink without such an error holds a prefix of standard input, and all of it if neither fails; neither sink depends on the other |
| Feeding.ReceivedIsPieces | main.c:689-691 | for every script, a sink receives one prefix of each chunk in order |
| Feeding.PassingErrorLeavesHole | main.c:689-689 | an error that does not last loses a piece in the middle |
| Feeding.FullPipeLeavesHole | main.c:676-691 | and so would a pipe left non-blocking |
| FilterChain.SetupFilters | main.c:384-463 | the chain is built if and only if none of its calls fails; the first call that fails decides the system, the descriptor and the filters that are left: the complete chain, the closed output, or what `AfterFailure` says |
| ChainOutcomes.OutcomeIff | main.c:393-436 | which failing call leads to which exit: the first pipe to none, memory or process of a filter that is not the last to the loss of its pipe |
| FilterChain.StartFilter | main.c:405-438 | one filter more without a failing call, or the first failing call and the state it leaves |
| FilterChain.ErrorExit | main.c:446-462 | every filter that runs is killed and waited for once, every descriptor closed once, and `open_devnull()` gives the null device or nothing, keeping its own descriptor from its first call on |
| SetupProperties.WrittenThroughFilters | main.c:384-440 | with or without filters, what is written to `output_fd` after a complete construction goes through all filters in order and ends at the output |
| SetupProperties.NullDeviceOpens | util.c:46-55 | a new descriptor of the null device if and only if neither `open()`, where it is needed, nor `dup()` fails; only the first call opens the device, and the descriptor it keeps stays |
| SetupProperties.ErrorExitOpensNull | main.c:446-462 | after an error exit `output_fd` is a new descriptor of the null device if and only if the calls behind the one that failed succeed, and the older descriptors stay |
| SetupProperties.ReapedInOrder | main.c:446-454 | each filter is waited for once, in the order of the configuration |
| FilterChain.KillAll | main.c:446-454 | kills and waits for the filters in order, leaving an empty list |
| FilterChain.MiddleFilter | main.c:407-434 | a pipe, a process and two closes turn the state before filter m into the state before filter m + 1 |
| FilterChain.UnwindsTo | main.c:446-457 | the error exit restores the children and the descriptors but for those of a filter that is not the last |
| FilterChain.AllChildrenGone | main.c:446-454 | the children of a chain are exactly the processes that the error exit removes |
| ChainProperties.ChainIsComposition | main.c:399-440 | data written to the chain ends at the output, after all filters in configuration order |
| ChainProperties.CompleteIsUp | main.c:392-438 | the write end of every pipe is held only by the filter before it, or by this process for the first |
| ChainProperties.ChainSurvives | main.c:655-667 | building the chain of the other stream gives nobody a write end of this one |
| OutputPair.SurvivesFailure | main.c:446-462 | and neither does an error exit of the other stream |
| OutputPair.SurvivesSetup | main.c:384-463 | however opening the other stream ends, this chain stays up |
| OutputPair.SurvivesClosing | main.c:703-704 | closing the other stream leaves this chain up |
| OutputPair.TwoOutputs | main.c:654-719 | both outputs are opened and closed in the order of `main()`; whatever fails, no wait blocks and the children in the end are those from before |
| OutputPair.BadCloseIff | main.c:393-397 | a descriptor is closed once too often if and only if the first pipe of a chain cannot be made |
| OutputPair.ClosedTwice | main.c:393-397 | one filter and no pipe: the output is closed twice |
| OutputPair.PipeLeftIff | main.c:420-436 | ends of a pipe stay open behind an error exit if and only if a filter other than the last got no memory or no process |
| OutputPair.LostPipe | main.c:420-424 | two filters and no memory for the first: two descriptors stay open |
| ChainProperties.NextFinishes | main.c:188-197 | once the output is closed and the filters before it have ended, a filter reads the end of its input |
| ChainProperties.CloseOutput | main.c:174-222 | with a complete chain or none, no wait blocks, each filter is waited for once and in order, and a second call does nothing |
| ConfigParser.StrLenChomp | util.c:34-42 | the length without trailing white space |
| ConfigParser.StrTok | conf.c:118-128 | the word becomes a string of its own, the rest is remembered, and nothing outside the string is written |
| ConfigParser.ParseEnum | conf.c:135-168 | the in-place parser computes `ParseValue` for enumerations |
| ConfigParser.ParseInt | conf.c:239-255 | and for integers, with base 0, the low 32 bits, and nothing behind the number |
| ConfigParser.ParseString | conf.c:211-232 | and for strings |
| ConfigParser.ParseStringMulti | conf.c:174-205 | and for lists of strings: a node is appended to the list of this option, or all are freed; the nodes hold what `ParseValue` says and the other lists stay |
| ConfigParser.ParseMappingMulti | conf.c:261-292 | and for lists of mappings, whose nodes are appended |
| ValueMeaning.EnumMeans | conf.c:135-168 | the first word has to be a name, whose number is stored; accepted if nothing follows |
| ValueMeaning.IntegerMeans | conf.c:239-255 | the first word has to be a number, decimal, octal behind `0` or hexadecimal behind `0x`, with or without a sign; what is stored is that number cut off at 64 bits and taken modulo 2^32; accepted if nothing follows |
| ValueMeaning.NotOctal | conf.c:246-246 | a word that begins with `0` but not with `0x` has to be octal |
| ValueMeaning.OctalExample | conf.c:246-246 | `010` is 8 |
| ValueMeaning.MappingMeans | conf.c:268-288 | a number or nothing, a colon and a file are a mapping, with the address modulo 2^64 |
| ValueMeaning.MappingIff | conf.c:268-273 | and nothing else is accepted |
| OptionMeaning.ExistsMeans | conf.c:94-100 | the names of the collision policies stand for the policies of `open_output()`, and no other value is accepted |
| OptionMeaning.ExistsLine | conf.c:341-377 | the line that chooses a policy, with any white space around its words |
| OptionMeaning.PoliciesInForce | conf.c:39-46 | whatever was read, each output has one of the four policies; by default append for the information and keep for the core |
| OptionMeaning.LevelMeans | log.c:67-78 | the name of a severity lets through the messages of this severity and the graver ones, `none` nothing |
| ConfigParser.ConfigState.ParseLine | conf.c:341-377 | on every C string, cutting the line in its buffer changes variables and linked lists as the pure split and trim say, and the lists of all options stay acyclic and disjoint |
| ConfigParser.ConfigState.Assign | conf.c:364-376 | the parser of the one keyword with this name is used, its count grows by one, and nothing else changes |
| ConfigLists.ListStore.Append | conf.c:191-202 | a value goes behind the others; the lists of all options stay acyclic and disjoint, and the others do not change |
| ConfigLists.ListStore.Clear | conf.c:179-188 | the nodes of this list are freed, and no others |
| ConfigLists.ListStore.FreeAll | conf.c:182-186 | each node is freed once, after its successor was read |
| ConfigFile.ParseFile | conf.c:382-411 | for every file, whatever its lines, the lists stay acyclic and disjoint and the configuration is what the lines say, up to the first that is refused or too long |
| ConfigFile.ShortLines | conf.c:394-403 | a file without a line that fills the buffer means the run of its lines |
| LineReader.Fgets | conf.c:394-394 | reads one line, or the piece of it that fits |
| LineReader.LineLenIs | conf.c:394-394 | a piece has no newline but its last character, and ends with one unless the buffer is full or the text at its end |
| LineReader.PiecesJoin | conf.c:394-394 | the pieces are the whole text |
| LineReader.PiecesOfLines | proc.c:95-95 | lines that fit are read one by one |
| Config.ChompLenIs | util.c:34-42 | only white space is chomped |
| Config.Split | conf.c:341-362 | a value that is assigned is trimmed and not empty, and its keyword is no comment |
| LineMeaning.LineForm | conf.c:346-362 | every line is one of: nothing before its end, its `=` or a `#`; a word without a value; a word with a value |
| LineMeaning.FormMeans | conf.c:341-377 | a line of the first kind changes nothing and is accepted, one of the second or with a word that is no keyword changes nothing and is refused, any other gives its trimmed value to the parser of its keyword |
| LineMeaning.AcceptedIff | conf.c:341-377 | exactly which lines are accepted, by their characters |
| LineMeaning.CommentsDoNotMatter | crashinfo.1:50-50 | a file means the same without its comments and empty lines |
| LineMeaning.FileStops | conf.c:394-405 | a file is read up to its first line that is refused or fills the buffer |
| LineMeaning.CommentInFile | crashinfo.1:244-250 | a comment is passed over, wherever it is in a file |
| ConfigPrinting.ParseKeepsCanonical | conf.c:135-292 | every parser, accepting or not, leaves only values that `log_conf()` can print |
| ConfigPrinting.ReachableIsCanonical | conf.c:379-411 | and so does every file: stored strings are trimmed, not empty and not `~` |
| ConfigHistory.OptionHistory | conf.c:364-373 | after accepted lines each option is the outcome of its own values alone |
| ConfigHistory.ListHistory | conf.c:174-205 | a list holds the values since its last `~`, in order |
| ConfigHistory.StringHistory | conf.c:211-232 | a string is the last value, or unset |
| ConfigHistory.ScalarHistory | conf.c:135-168 | an enumeration or a number is decided by the last value alone |
| ConfigHistory.ListOptionMeaning | conf.c:174-205 | the same, for a list option and the lines of a whole file |
| ConfigRoundTrip.StrtolOfDecimal | conf.c:246-253 | base 0 reads back what `%d` prints |
| ConfigRoundTrip.StrtolOfAltHex | conf.c:268-273 | base 0 reads back what `%#x` prints, cut off at 2^63 - 1 |
| ConfigRoundTrip.SplitOfLine | conf.c:346-362 | a printed line is split into its keyword and value again |
| ConfigRoundTrip.OptionReads | conf.c:414-461 | the lines of one option give its value back; only an empty list of mappings is refused |
| ConfigRoundTrip.RoundTrip | conf.c:463-485 | `log_conf()` is undone by `parse_line()` if and only if every list of mappings is given and below 2^63 |
| OptionsRoundTrip.KeywordsAreGood | conf.c:295-334 | the keywords of the program are distinct plain words, and so are the names of each enumeration |
| OptionsRoundTrip.DefaultsAreCanonical | conf.c:39-57 | the defaults can be printed |
| OptionsRoundTrip.ReachableRoundTrip | conf.c:463-485 | every configuration that lines can produce from the defaults is rebuilt by its own log if and only if its mappings are given and below 2^63 |
| MapsFile.ReadMaps | proc.c:95-115 | the loop over the file, in one buffer, computes `FileResult` of its lines, or of the pieces of lines that do not fit |
| MapsFile.Rewrite | proc.c:106-108 | the overlapping rewrite yields the directive with the path intact exactly when the assertion holds |
| MapsFile.MoveDown | proc.c:108-108 | the string and its NUL move to the front |
| MapsProperties.ScanLineOf | proc.c:100-104 | what the scan finds on every well-formed line: the start address, the third permission, and where the path begins |
| MapsProperties.HeaderBeforePath | proc.c:106-107 | the header has at most h + 13 characters and the path begins at h + 14 or later, so the assertion holds |
| MapsProperties.HeaderBoundIsTight | proc.c:106-107 | one line meets both bounds |
| MapsProperties.AssertionNeedsSeparators | proc.c:107-107 | a line without separators for which the assertion fails |
| MapsProperties.SplitOfHeader | proc.c:106-110 | the rewritten line is the directive for the start address and the trimmed path |
| MapsProperties.FileResultOf | proc.c:95-115 | for every well-formed file no line is refused, and the option gains exactly the start and trimmed path of the executable lines with a path, in file order |
| MapsProperties.FileTextResultOf | proc.c:95-115 | the same for the text of the file |
| MapsAnyText.PathFound | proc.c:100-104 | in a line of any layout, the offset found is that of the path |
| MapsAnyText.AnyFile | proc.c:95-115 | whatever the file holds, no rewritten line is refused, nothing but proc_maps changes, and it gains at most one absolute path for each line |
| OptionsRoundTrip.ProgramReadsMaps | proc.c:86-117 | the same for the program's own options, from the defaults: nothing but proc_maps changes |
| Yaml.Fputy | info.c:63-82 | the quoted and escaped string is written, or as much of it as the stream takes |
| Yaml.PutCmdline | info.c:183-204 | the loop with one character of pushback writes the flow sequence of the command line |
| YamlReader.EscapeReads | info.c:44-61 | every escape is read back as its character (YAML 1.2, section 5.7) |
| YamlReader.EscapeLengths | info.c:44-61 | which characters stand for themselves, which have an escape of one letter and which a hexadecimal one |
| YamlReader.EscapedIsVisible | info.c:63-82 | whatever the bytes, visible ASCII text in one line is written |
| YamlReader.ScalarReads | info.c:63-82 | a quoted string is read back whatever follows it (section 7.3.1) |
| YamlReader.FinalNulOptional | info.c:192-198 | the last NUL of the file makes no difference behind an argument that is not empty |
| YamlReader.CmdlineReads | info.c:181-204 | for all arguments over bytes 1 to 255, empty ones included, the flow sequence is read back as the arguments (section 7.4.1) |

## Left out

- OpenRetry.OpenOutput: the counter is unbounded, so the wrap-around of `int` after 2^31 names is not modelled; the null device that stands in for an output after a failure before the filters is left out.
- Duplication.Duplicate: the round in which the process is found is a parameter, and `blockfd()` works; whether the warm-up ends when nobody ever finds the process is not stated, since the loop goes on writing nothing once its buffer is exhausted. A write of -1 bytes after a failed first read is taken to be refused.
- ChainProperties.CloseOutput: a filter is taken to end when its input does.
- ConfigParser.ConfigState.ParseLine: allocation failure is left out, as is the single `char *` behind a string option.
- ConfigFile.ParseFile: the file can be opened and holds no NUL.
- MapsFile.ReadMaps: the file holds no NUL; for input in which `0x` stands before no digit, `sscanf()` may read less.
- Yaml.Fputy: from byte 128 on this is the program where `char` is unsigned; where it is signed, `yaml_esc()` writes beyond its buffer there. The stream has taken everything so far; what stdio does after a failure is not modelled.
- Yaml.PutCmdline: the same for bytes from 128 on.
- YamlReader.CmdlineReads: the same for bytes from 128 on, which the reader takes for the characters of those numbers.
- Path names are looked up by their non-empty components: `.`, `..`, symbolic links and limits on the length of names mean nothing special.
- The pattern is what `strftime()` leaves in the buffer, and one run sees one process id. The texts of `%d` and `%0*d` are computed before the loop, not inside it.
- Descriptors and process ids are never handed out twice, and allocation fails only in the construction of a chain.
- The error-message text of `parse_enum()`, logging and exit codes.
- `spawn_proc()` beyond its descriptors: its arguments, `@1` and `@2`, and the notify commands.
- Signals, resource limits, option parsing, timing, the unwinder, process id namespaces and the dump of `/proc` files.
- The build without libunwind.
