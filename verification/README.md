# Verified models of frida-core components

This project models the parts of frida-core whose behaviour is decided by logic rather than by the
operating system, and proves what their callers rely on. Everything is Dafny 4.11; `dafny verify
dfyconfig.toml` checks the whole project.

| files | component |
|---|---|
| `Preprocessor.dfy`, `PreprocessorScanner.dfy`, `PreprocessorTree.dfy`, `PreprocessorText.dfy` | the conditional-compilation scanner of the syscall bindings generator |
| `Expression.dfy`, `ExpressionProof.dfy`, `ExpressionParser.dfy` | its `#if` expression parser |
| `Scanners.dfy` | its parenthesis extractor and comma splitter |
| `Descriptor.dfy`, `Stdio.dfy`, `StdioRuns.dfy`, `StdioMixed.dfy` | the buffered streams of the payload's libc shim |
| `CommandLine.dfy`, `EnvironmentBlock.dfy` | building a Windows command line and environment block, and reading them |
| `Pdata.dfy`, `PdataLinks.dfy` | sorting the `.pdata` section of a COFF object |
| `FunctionPointers.dfy`, `ModuleEditor.dfy` | reordering the constructors and destructors of an ELF module |
| `Trie.dfy` | the symbol replacer's longest-match trie and its replacement loop |
| `CString.dfy`, `Trigraphs.dfy`, `Bundle.dfy`, `TsconfigCache.dfy` | the compiler backend's C string writer, bundle writer and options cache |
| `Der.dfy`, `Certificate.dfy` | the certificate and key encoder of the peer-to-peer support |
| `Prelude.dfy`, `Binary.dfy` | shared definitions |

Code that works by changing things step by step is modelled by classes and methods with loops, each
proved against a specification function; the laws are then proved about those functions.

The main results:

- **Conditional compilation.** The frame stack is proved equal, on every text, to a recursive
  semantics of nested conditionals (`MachineIsTree`); the spans cover exactly the live lines
  (`SpansAreMeaning`), and every macro is left by the latest live line about it (`MacrosAreLatest`). A
  continued `#if` shifts every later span, because the continuation lines are not counted: the spans
  returned for a text are right if and only if no live line follows one (`SpansAreTrueIffAligned`, with
  `ContinuedIfMisplacesSpan` as a witness), hence on every text without one (`SpansAreTrue`).
- **Expressions.** A token string evaluates to a value exactly when it spells a well-formed tree with
  that value, and it spells only one (`ParseAllIsEval`, `Unambiguous`). Comparisons do not chain and
  `&&` does not short-circuit, unlike in C (`ComparisonsDoNotChain`, `NoShortCircuit`).
- **Streams.** Every interleaving of reads, line reads and pushbacks, in every buffering mode and under
  every schedule of short or failing calls, hands out the bytes of one sequence: each operation what it
  was asked for, or less only at the end or after a failure (`RunReads`). Writes are conserved, and land
  where they should, until a call fails (`RunWrites`). Reads, writes, seeks and changes of buffering in
  one run act like those on a file without buffers, as long as each acts where its caller stands
  (`RunMixed`); when that is can be told from the buffers alone (`InPlaceIff`), and for reading after
  writing and writing after reading there are failing states. Three more exact conditions, each with a
  failing state: changing the buffering keeps the pending input iff nothing was read ahead, a relative
  seek is right iff nothing is buffered, and a failed flush conserves the output iff nothing had gone
  out.
- **Quoting.** A process finds the argument list it was given exactly when `NameSurvives` holds of the
  program name (`LineRoundTrip`); every C string survives a compiler, trigraph replacement included,
  exactly when no byte written in hex is followed by a hexadecimal digit and no trigraph stands in it
  (`TrigraphRoundTrip`); every environment survives exactly when no variable is empty.
- **Binary rewriting.** Sorting `.pdata` is a stable sort that carries every entry to its place in the
  order. A second run finds the entries again and changes nothing exactly when no relocation is missing
  or no entry has a greater key than the last (`Reread`, `SecondRunIff`). A relocation belongs to the
  entry its address lies in, while the pass takes rows by their place in the table: every relocation
  still applies to the field it applied to exactly when row `k` lies in entry `k / 3`, and a row past
  three per entry lies in one that keeps its place (`SortKeepsMeaning`, with objects that fail either
  half). To a linker, which takes the table as a bag, it means the same exactly when addressing every
  row to the entry that the pass takes it for permutes the table (`SortKeepsTable`), which is more
  often (`AlikeRowsChangePlaces`). A saved ELF module reads back with exactly the moved vectors,
  through the slots or the relocation addends.
- **Encodings.** DER lengths and integers are the shortest possible; the encoder and a strict reader are
  inverse to each other on trees and on octets; certificates read back for every key and signature; a
  bundle reads back exactly when no shown path has a newline.
- **Caches and tables.** The trie finds the longest inserted pattern with its latest value, from any
  inserts to the search (`FindLongest`). The options cache answers, over every history, as the file
  does when it reads it and otherwise with the options of the file last read (`CacheAnswers`); every
  answer is right exactly when no file with the time of the last good one differs from it in its options
  (`CacheAgrees`), and the text it returns goes stale under an exact condition (`TextAgrees`,
  `TextGoesStale`).

Where the code and its documentation or the standard it follows differ, the model follows the code; the
places are named above and in the rows below.

## Model

| member | source | states |
|---|---|---|
| Preprocessor.GatherStops | lib/base/linux-syscalls/generate-bindings.py:1327-1356 | a directive takes exactly the lines up to the first without a backslash, joined in order, and fails iff there is none |
| PreprocessorScanner.Scanner.constructor | lib/base/linux-syscalls/generate-bindings.py:1260-1273 | built-in constants are added, and never replace a given definition |
| PreprocessorScanner.Scanner.GatherContinued | lib/base/linux-syscalls/generate-bindings.py:1327-1356 | the loop over continuation lines computes the joined text and the count of lines consumed |
| PreprocessorScanner.Scanner.ReadUnit | lib/base/linux-syscalls/generate-bindings.py:1290-1304 | reads the directive at a line with its continuation |
| PreprocessorScanner.Scanner.ApplyUnit | lib/base/linux-syscalls/generate-bindings.py:1306-1317 | one line's effect on the frame stack and the macros, failures included |
| PreprocessorScanner.Scanner.TrackUnit | lib/base/linux-syscalls/generate-bindings.py:1306-1323 | span start, offset and finished spans keep describing exactly the live lines so far |
| PreprocessorScanner.Scanner.Advance | lib/base/linux-syscalls/generate-bindings.py:1287-1323 | one iteration leaves the rest of the run and the runs of live lines as they should be, or fails where the run does |
| PreprocessorScanner.Scanner.ComputeActiveSpans | lib/base/linux-syscalls/generate-bindings.py:1279-1325 | fails exactly when the line-by-line machine fails, and otherwise returns the runs of live lines and leaves its macros |
| PreprocessorScanner.ExtendCovers | lib/base/linux-syscalls/generate-bindings.py:1307-1315 | closing a span adds exactly its offsets |
| PreprocessorScanner.RunsOrdered | lib/base/linux-syscalls/generate-bindings.py:1307-1325 | spans are non-empty, increasing, disjoint and within the counted text |
| PreprocessorScanner.RunsCover | lib/base/linux-syscalls/generate-bindings.py:1307-1325 | an offset lies in a span iff it lies in a live line |
| PreprocessorScanner.ScanIsRun | lib/base/linux-syscalls/generate-bindings.py:1287-1320 | reading lines as they come is the same as reading all units first |
| PreprocessorTree.Parse | lib/base/linux-syscalls/generate-bindings.py:1379-1457 | any directive list splits into a forest of conditional groups and a rest that opens nothing |
| PreprocessorTree.ParseGroup | lib/base/linux-syscalls/generate-bindings.py:1379-1457 | a group runs to its `#endif` or to the end of the text |
| PreprocessorTree.ParseIsUnique | lib/base/linux-syscalls/generate-bindings.py:1379-1457 | there is no other such split: a forest and what closes it are found again |
| PreprocessorTree.TopDecides | lib/base/linux-syscalls/generate-bindings.py:1459-1460 | testing every frame agrees with testing the top one |
| PreprocessorTree.RunSkips | lib/base/linux-syscalls/generate-bindings.py:1379-1457 | inside a dead branch the machine changes no macro, evaluates nothing and marks nothing live |
| PreprocessorTree.RunSkipsSections | lib/base/linux-syscalls/generate-bindings.py:1414-1448 | after a taken or dead branch every later branch of the group is skipped |
| PreprocessorTree.RunForest | lib/base/linux-syscalls/generate-bindings.py:1279-1325 | in a live context the machine does what the recursive semantics of the forest says |
| PreprocessorTree.RunGroup | lib/base/linux-syscalls/generate-bindings.py:1379-1457 | of a conditional group the first branch whose condition holds is executed and no other |
| PreprocessorTree.MachineIsTree | lib/base/linux-syscalls/generate-bindings.py:1279-1325 | on every directive list the frame stack computes the tree semantics, and fails on an unmatched directive |
| PreprocessorText.ScanIsMeaning | lib/base/linux-syscalls/generate-bindings.py:1279-1325 | the same from the lines of a text |
| PreprocessorText.SpansAreMeaning | lib/base/linux-syscalls/generate-bindings.py:1279-1325 | an offset lies in a returned span iff the tree semantics makes its line live; spans are ordered and in bounds |
| PreprocessorText.MacrosAreReplay | lib/base/linux-syscalls/generate-bindings.py:1275-1277 | the final macros are those of applying only the live definitions, in order |
| PreprocessorText.MacrosAreLatest | lib/base/linux-syscalls/generate-bindings.py:1358-1377 | every macro ends up as the latest live line that names it left it, or as it was given |
| PreprocessorText.CountFallsBehind | lib/base/linux-syscalls/generate-bindings.py:1297-1320 | the running offset is behind the true one exactly after a continued conditional |
| PreprocessorText.SpansAreTrueIffAligned | lib/base/linux-syscalls/generate-bindings.py:1297-1320 | the spans returned for a text hold the true offsets of the lines its tree semantics makes live, and no others, iff none of these lines follows a continued conditional |
| PreprocessorText.SpansAreTrue | lib/base/linux-syscalls/generate-bindings.py:1297-1320 | so they do for every text in which no `#if` or `#elif` line is continued |
| PreprocessorText.ActualIsLength | lib/base/linux-syscalls/generate-bindings.py:1297-1320 | the true offset of a line is the length of all lines before it |
| PreprocessorText.CountsAreTrueIffAligned | lib/base/linux-syscalls/generate-bindings.py:1297-1320 | over any history of lines the offsets counted for live lines are the true ones iff none follows a continued conditional |
| PreprocessorText.MisalignedIsFalse | lib/base/linux-syscalls/generate-bindings.py:1297-1320 | otherwise there is a true offset of a live line that is counted for none |
| PreprocessorText.ScanReads | lib/base/linux-syscalls/generate-bindings.py:1287-1320 | a run reads every line once, in order |
| PreprocessorText.ContinuedIfMisplacesSpan | lib/base/linux-syscalls/generate-bindings.py:1297-1320 | a four-line text whose only live line is not covered |
| Expression.FloorModulo | lib/base/linux-syscalls/generate-bindings.py:1828-1831 | the remainder has the sign of the divisor and is smaller in size |
| Expression.FloorModuloRemains | lib/base/linux-syscalls/generate-bindings.py:1828-1831 | it differs from the dividend by a multiple of the divisor |
| ExpressionProof.ParseReads | lib/base/linux-syscalls/generate-bindings.py:1738-1850 | every well-formed tree, written out, parses to itself and leaves what follows |
| ExpressionProof.PayloadReads | lib/base/linux-syscalls/generate-bindings.py:1718-1736 | a balanced payload is skipped up to its own parenthesis |
| ExpressionProof.PayloadIsBalanced | lib/base/linux-syscalls/generate-bindings.py:1718-1736 | what is skipped is balanced |
| ExpressionProof.ParseIsExact | lib/base/linux-syscalls/generate-bindings.py:1738-1850 | what parses is a well-formed tree of that level whose tokens are exactly those consumed, and the next token does not continue an expression of that level |
| ExpressionProof.ParseAllIsEval | lib/base/linux-syscalls/generate-bindings.py:1639-1643 | a token string has a truth value iff it spells a well-formed tree with that strict value |
| ExpressionProof.Unambiguous | lib/base/linux-syscalls/generate-bindings.py:1738-1850 | no token string spells two trees |
| ExpressionProof.ComparisonsDoNotChain | lib/base/linux-syscalls/generate-bindings.py:1778-1795 | a comparison directly followed by a comparison operator is refused |
| ExpressionProof.WrittenIsEvaluated | lib/base/linux-syscalls/generate-bindings.py:1639-1643 | every expression, with parentheses only where precedence needs them, evaluates to its value |
| ExpressionProof.DressIsWell | lib/base/linux-syscalls/generate-bindings.py:1738-1850 | those parentheses suffice and do not change the value |
| ExpressionProof.NoShortCircuit | lib/base/linux-syscalls/generate-bindings.py:1738-1752 | the logical operators have a value iff both operands have one |
| ExpressionParser.TailIsStrict | lib/base/linux-syscalls/generate-bindings.py:1738-1832 | once an operand fails, so does the whole chain |
| ExpressionParser.Parser.Parse | lib/base/linux-syscalls/generate-bindings.py:1639-1643 | the mutable parser computes the value of the whole token string or fails, trailing tokens included |
| ExpressionParser.Parser.ParseLevel | lib/base/linux-syscalls/generate-bindings.py:1738-1850 | reads one expression of a level and stands after it |
| ExpressionParser.Parser.ParseChain | lib/base/linux-syscalls/generate-bindings.py:1738-1776 | a left-associative chain of one level |
| ExpressionParser.Parser.ParseComparison | lib/base/linux-syscalls/generate-bindings.py:1778-1795 | at most one comparison |
| ExpressionParser.Parser.ParseUnary | lib/base/linux-syscalls/generate-bindings.py:1834-1850 | prefix operators, innermost first |
| ExpressionParser.Parser.ParsePrimary | lib/base/linux-syscalls/generate-bindings.py:1679-1716 | numbers, macros, `defined`, always-on functions and parentheses |
| ExpressionParser.Parser.ParseDefined | lib/base/linux-syscalls/generate-bindings.py:1661-1677 | both spellings of `defined` |
| ExpressionParser.Parser.SkipPayload | lib/base/linux-syscalls/generate-bindings.py:1718-1736 | skips to the matching parenthesis, or fails where there is none |
| Scanners.ExtractPayload | lib/base/linux-syscalls/generate-bindings.py:787-833 | returns the text up to the closing parenthesis and the offset after it, or fails |
| Scanners.ClosingIsBalanced | lib/base/linux-syscalls/generate-bindings.py:802-829 | the parenthesis found is the one that closes iff the text before it is balanced with quotes taken into account |
| Scanners.PayloadIsBalanced | lib/base/linux-syscalls/generate-bindings.py:802-829 | every extracted payload is balanced and is followed by a closing parenthesis |
| Scanners.ParseIsExact | lib/base/linux-syscalls/generate-bindings.py:802-829 | the scanner fails exactly when no balanced text leads to a closing parenthesis |
| Scanners.SplitTopLevelCommas | lib/base/linux-syscalls/generate-bindings.py:975-1019 | the cursor loop computes the split, on any text |
| Scanners.SplittingIsFields | lib/base/linux-syscalls/generate-bindings.py:983-1019 | on balanced text the pieces are the stripped fields between top-level commas |
| Scanners.SplitNeverClamps | lib/base/linux-syscalls/generate-bindings.py:1004-1007 | on balanced text the depth is never clamped at zero |
| Scanners.SplitIsFields | lib/base/linux-syscalls/generate-bindings.py:975-1019 | the pieces are the stripped fields, and the fields joined with commas are the text |
| Scanners.PayloadSplits | lib/base/linux-syscalls/generate-bindings.py:975-1019 | every extracted payload splits at exactly its top-level commas, without the depth ever being clamped, and its fields joined restore it |
| Scanners.JoinFields | lib/base/linux-syscalls/generate-bindings.py:975-1019 | joining restores the text |
| Descriptor.File.Read | lib/payload/libc-shim.c:2307-2323 | a read may be short or fail; nothing is lost, and an empty one means the end |
| Descriptor.File.Write | lib/payload/libc-shim.c:2325-2341 | a write may be short or fail; it delivers a prefix |
| Descriptor.File.Seek | lib/payload/libc-shim.c:2361-2377 | moves to an absolute offset or fails and stays |
| Descriptor.OverwriteTwice | lib/payload/libc-shim.c:2325-2341 | bytes written in two calls land as they would in one, past the end of the file too |
| Stdio.Stream.constructor | lib/payload/libc-shim.c:2042-2065 | a new stream is empty and has room to buffer iff it is buffered |
| Stdio.Stream.FillRead | lib/payload/libc-shim.c:2113-2143 | refilling takes nothing from what is pending; 0 means end of file, and a failure is recorded |
| Stdio.Stream.TakePushed | lib/payload/libc-shim.c:941-942 | the last byte pushed back comes first |
| Stdio.Stream.TakeReady | lib/payload/libc-shim.c:1145-1155 | takes bytes off the front of the read buffer |
| Stdio.Stream.ReadSome | lib/payload/libc-shim.c:1107-1156 | one round takes a prefix of what is pending; taking nothing means end of file or failure |
| Stdio.Stream.ReadDirect | lib/payload/libc-shim.c:1115-1134 | the same for an unbuffered stream |
| Stdio.Stream.Getc | lib/payload/libc-shim.c:934-975 | returns the next pending byte; EOF means that none is left, with the flag set, or that a read failed |
| Stdio.Stream.Fread | lib/payload/libc-shim.c:1091-1159 | the bytes returned are exactly what comes next, `size * nmemb` of them modulo 2^64 or fewer at the end or after a failure, and all land in the buffer; the count is that of the whole items |
| Stdio.ItemsWrap | lib/payload/libc-shim.c:1103-1158 | the bytes asked for make `nmemb` items iff the product does not wrap around |
| Stdio.WrapLosesItems | lib/payload/libc-shim.c:1103-1158 | 2^31 items of 2^33 bytes: no byte is asked for and no item comes |
| Stdio.Stream.ReadFully | lib/payload/libc-shim.c:1103-1156 | the loop behind it, in bytes |
| Stdio.Stream.Fgets | lib/payload/libc-shim.c:1294-1319 | takes up to and including the first newline or size - 1 bytes, zero-terminated, never past it |
| Stdio.Stream.Getdelim | lib/payload/libc-shim.c:1460-1507 | takes up to and including the first delimiter and returns it, in the given buffer or, if that is null or too short, a longer one, with room for the zero |
| Stdio.Reserve | lib/payload/libc-shim.c:1486-1496 | growth doubles the buffer, keeps its contents and leaves room for a byte and the zero |
| Stdio.Stream.Ungetc | lib/payload/libc-shim.c:1041-1058 | puts one byte in front of what is pending and clears the end flag, or refuses and changes nothing |
| Stdio.Stream.FlushWrite | lib/payload/libc-shim.c:2086-2111 | delivers the whole buffer in order and at the offset of the file; a failure leaves the buffer as it was with a prefix already out |
| Stdio.Stream.Fflush | lib/payload/libc-shim.c:881-894 | success empties the buffer and conserves the output; a failure leaves the buffer with the prefix that went out still in it, so the output is conserved iff nothing had gone out |
| Stdio.HalfFlushRepeats | lib/payload/libc-shim.c:2086-2111 | two bytes of which one went out: it goes out again |
| Stdio.Stream.Fwrite | lib/payload/libc-shim.c:1161-1228 | without failures every byte is delivered or buffered, once, in order, and lands behind those accepted before; a line-buffered stream keeps no newline back |
| Stdio.Stream.WriteDirect | lib/payload/libc-shim.c:1177-1194 | the unbuffered loop delivers everything or fails with a prefix out |
| Stdio.Stream.BufferSome | lib/payload/libc-shim.c:1198-1224 | one round makes room, takes at least one byte and flushes a completed line |
| Stdio.Stream.WriteBuffered | lib/payload/libc-shim.c:1196-1227 | the buffered loop terminates for every capacity above zero |
| Stdio.Stream.Setvbuf | lib/payload/libc-shim.c:771-846 | delivers pending output or changes nothing, sets the capacities for a supplied or an own buffer; pending input is kept iff nothing was read ahead |
| Stdio.SetvbufLosesInput | lib/payload/libc-shim.c:841-843 | a state in which two bytes read ahead are lost |
| Stdio.Stream.Ftell | lib/payload/libc-shim.c:1425-1446 | reports the file offset less what is read ahead or pushed back, and moves nothing |
| Stdio.Stream.Fseek | lib/payload/libc-shim.c:1399-1423 | flushes, forgets the input buffers and moves; a failed flush keeps everything, a failed move loses what was buffered; a relative seek counts from the file's own offset, which is the reader's position iff nothing is read ahead or pushed back |
| Stdio.SeekByNothingSkips | lib/payload/libc-shim.c:1399-1423 | a state in which seeking by nothing skips two bytes |
| Stdio.PendingInFile | lib/payload/libc-shim.c:1425-1446 | without pushback the pending bytes are those of the file from the reported position on |
| StdioRuns.Step | lib/payload/libc-shim.c:934-1507 | each operation hands its caller a prefix of the pending bytes, as many as asked for or fewer only at the end or after a failure, and a pushback returns its own byte or is refused |
| StdioRuns.StepTake | lib/payload/libc-shim.c:934-1507 | the same of the four operations that take bytes, with what each of them promises about its amount, `getdelim` with a buffer or without |
| StdioRuns.RunReads | lib/payload/libc-shim.c:934-1507 | the bytes handed out by every interleaving, under every schedule of short and failing reads, are explained by one byte sequence, operation by operation, and the position follows |
| StdioRuns.ExplainsReplays | lib/payload/libc-shim.c:934-1507 | what explains a run replays it: takes come off the front and pushbacks go back there |
| StdioRuns.RunTakesInOrder | lib/payload/libc-shim.c:934-1507 | without pushback the bytes handed out and those left are what was pending, in order |
| StdioRuns.ReplayTakesInOrder | lib/payload/libc-shim.c:934-1159 | without pushback a run reads each byte once, in order |
| StdioRuns.ReplayConserves | lib/payload/libc-shim.c:934-1159 | what is left shrinks by what was taken and grows by what was returned |
| StdioRuns.TellThenSeek | lib/payload/libc-shim.c:1399-1446 | seeking to the reported position leaves the remaining bytes unchanged |
| StdioRuns.RunWrites | lib/payload/libc-shim.c:881-893 | over any run without failure, delivered bytes and buffer make up what was handed over, and a final flush delivers it all to where the first byte was to go |
| StdioMixed.RunMixed | lib/payload/libc-shim.c:771-1507 | any run of reads, writes, seeks and changes of buffering gives the bytes, contents and place of a file without buffers, up to the first operation that is out of place or fails |
| StdioMixed.StepMixed | lib/payload/libc-shim.c:771-1507 | the same of one operation, which keeps the buffers tidy |
| StdioMixed.InPlaceIff | lib/payload/libc-shim.c:771-1507 | an operation is in place iff the offset at which the code acts is the one its caller is told |
| StdioMixed.Read | lib/payload/libc-shim.c:934-1507 | a read with no output kept back reads the file at the place of the reader |
| StdioMixed.Write | lib/payload/libc-shim.c:1161-1228 | a write with nothing read ahead or put back overwrites the file at that place |
| StdioMixed.Move | lib/payload/libc-shim.c:1399-1423 | a seek moves that place, counted from it if it is relative and nothing is read ahead or put back |
| StdioMixed.Rebuffer | lib/payload/libc-shim.c:771-846 | a change of buffering with nothing read ahead changes neither contents nor place |
| StdioMixed.WriteAfterReadMisses | lib/payload/libc-shim.c:1161-1228 | a byte written after a read lands behind what was read ahead, and what was read ahead is no longer in the file there |
| StdioMixed.ReadAfterWriteMisses | lib/payload/libc-shim.c:934-975 | a byte read after a write that is kept back is the one it replaces |
| CommandLine.ArgvToCommandLine | src/windows/windows-host-session-glue.c:304-373 | the nested loops build the specified line |
| CommandLine.AppendQuoted | src/windows/windows-host-session-glue.c:334-365 | one quoted argument |
| CommandLine.AppendBackslashes | src/windows/windows-host-session-glue.c:408-415 | appends n backslashes |
| CommandLine.ReadEscaped | src/windows/windows-host-session-glue.c:338-365 | inside quotes the escaped text reads as the text, for any run of backslashes |
| CommandLine.ReadPlain | src/windows/windows-host-session-glue.c:322-331 | an argument that needs no quotes reads as itself |
| CommandLine.ReadWritten | src/windows/windows-host-session-glue.c:304-373 | after the whole line the reader holds all arguments and is outside quotes |
| CommandLine.RoundTrip | src/windows/windows-host-session-glue.c:304-373 | every argument list reads back as itself by the backslash and quote rules for arguments |
| CommandLine.NameRoundTrip | src/windows/windows-host-session-glue.c:304-373 | by the rules for the program name, a name survives iff it needs no quotes, or has no quote in it and no backslash at its end |
| CommandLine.ProgramNameRoundTrip | src/windows/windows-host-session-glue.c:304-373 | the same in front of any further arguments |
| CommandLine.WriteCons | src/windows/windows-host-session-glue.c:304-373 | the line of several arguments is that of the first, a space and that of the rest |
| CommandLine.LineRoundTrip | src/windows/windows-host-session-glue.c:304-373 | read by the rules for the program name and then those for arguments, the line gives back the whole list iff the name survives |
| CommandLine.TrailingBackslashDoubles | src/windows/windows-host-session-glue.c:347-351 | a name with a space and a backslash at its end comes back changed |
| EnvironmentBlock.EnvpToEnvironmentBlock | src/windows/windows-host-session-glue.c:375-406 | the loop builds the specified block, empty list included |
| EnvironmentBlock.ParseUnicodeEnvironment | lib/payload/spawn-monitor-glue.c:29-50 | the loop computes the specified parse |
| EnvironmentBlock.ParseReads | lib/payload/spawn-monitor-glue.c:29-50 | parsing stops at the first empty string and never reads beyond it |
| EnvironmentBlock.RoundTrip | src/windows/windows-host-session-glue.c:375-406 | parsing a written block gives the variables up to the first empty one, and all of them iff none is empty |
| EnvironmentBlock.EmptyVariableHides | lib/payload/spawn-monitor-glue.c:29-50 | three variables of which only the first is found |
| Pdata.SortIsStable | src/compiler/build-backend.py:331-332 | the result is ordered by key, has the same entries, and keeps the order of equal keys |
| Pdata.StableSortIsUnique | src/compiler/build-backend.py:331-332 | only one list is like that, so it is what any stable sort returns |
| Pdata.ReadSymbols | src/compiler/build-backend.py:251-282 | fails iff the symbol table is cut off, and otherwise gives the value of every symbol |
| Pdata.ReadRelocTable | src/compiler/build-backend.py:291-305 | fails iff a relocation is cut off, and otherwise reads them all |
| Pdata.Associate | src/compiler/build-backend.py:316-329 | fails iff some entry has no relocation; a symbol index outside the table has key 0 |
| Pdata.BuildEntries | src/compiler/build-backend.py:334-337 | the entries in their new order |
| Pdata.BuildRelocs | src/compiler/build-backend.py:339-346 | the relocations of every entry, at its new place |
| Pdata.SortObject | src/compiler/build-backend.py:285-354 | a run writes the whole specified result or nothing |
| Pdata.TablesFit | src/compiler/build-backend.py:349-354 | the new tables are as long as the bytes they replace |
| Pdata.RewriteKeepsRest | src/compiler/build-backend.py:349-354 | nothing outside the section and its relocations changes |
| Pdata.RewriteHolds | src/compiler/build-backend.py:349-354 | the section then is the sorted entries, the table their relocations |
| Pdata.UnpackPack | src/compiler/build-backend.py:341-346 | a moved relocation keeps field, symbol and type |
| Pdata.RereadEntry | src/compiler/build-backend.py:316-354 | in an object with such entries in place, entry i reads as the installed one with its own rows, at the new place, and the same key |
| Pdata.Reread | src/compiler/build-backend.py:285-354 | taking the rows by threes as the pass does, reading the result gives the sorted entries, renumbered, iff no relocation is missing or no entry has a greater key than the last |
| Pdata.SecondRunIsIdentity | src/compiler/build-backend.py:285-354 | under that condition a second run changes no byte |
| PdataLinks.SecondRunIff | src/compiler/build-backend.py:285-354 | and under no other |
| PdataLinks.GapShows | src/compiler/build-backend.py:339-346 | the row after a short group tells, by its address, where that group stands in the table |
| Pdata.ChunksFindGroups | src/compiler/build-backend.py:318-320 | taking rows by three finds the groups again iff only the last one is short |
| Pdata.ShortTableSurvives | src/compiler/build-backend.py:307-320 | taking the rows by threes, a reader finds in the written table the rows of every entry iff none is missing or no entry has a greater key than the last |
| Pdata.ReadAsRead | src/compiler/build-backend.py:307-320 | in every readable object at most the last entry is short, and it is iff the count is below three per entry |
| PdataLinks.ShortTableGetsMixed | src/compiler/build-backend.py:307-320 | a five-row object in which the rows of two entries get mixed |
| PdataLinks.RankIsPlace | src/compiler/build-backend.py:331-332 | an entry goes to the place that counts the entries before it in key and order |
| PdataLinks.EntryMoves | src/compiler/build-backend.py:334-337 | the twelve bytes of every entry stand at its place in the order |
| PdataLinks.RowMoves | src/compiler/build-backend.py:318-346 | row k goes with entry k / 3, keeps field, symbol and type, and its address is moved into the place of that entry |
| PdataLinks.RowStays | src/compiler/build-backend.py:349-354 | a row past three per entry stays as it is |
| PdataLinks.NewRowsDiffer | src/compiler/build-backend.py:339-346 | no two rows go to the same place |
| PdataLinks.RowFollows | src/compiler/build-backend.py:318-346 | a row still applies to the entry its address lay in iff that is entry k / 3, or, past three per entry, an entry that keeps its place |
| PdataLinks.SortKeepsMeaning | src/compiler/build-backend.py:285-354 | every entry is carried to its place, and every relocation applies to the field it applied to iff each row is in its entry in that sense |
| PdataLinks.SortKeepsTable | src/compiler/build-backend.py:285-354 | as a bag of rows the table means the same iff addressing every row to the entry that the pass takes it for permutes it; without surplus rows the order of the entries has no part in that |
| PdataLinks.LinksKeepTable | src/compiler/build-backend.py:285-354 | where every relocation keeps its field the table means the same |
| PdataLinks.AlikeRowsChangePlaces | src/compiler/build-backend.py:318-346 | an object in which it means the same although every row changes its entry |
| PdataLinks.MisplacedRowsMove | src/compiler/build-backend.py:318-346 | an object with the rows of two entries exchanged, whose relocations end up in the wrong entries |
| PdataLinks.SurplusRowStaysBehind | src/compiler/build-backend.py:349-354 | an object with a seventh row for two entries, which stays behind when its entry moves |
| FunctionPointers.Position | tools/modulate.py:446-456 | the first element with that name |
| FunctionPointers.MovesKeep | tools/modulate.py:438-444 | any run of moves permutes the vector and keeps all elements it does not name in order |
| FunctionPointers.Vector.IndexOf | tools/modulate.py:446-456 | finds the first match or fails |
| FunctionPointers.Vector.MoveFirst | tools/modulate.py:438-440 | pops the element and inserts it in front; a failure changes nothing |
| FunctionPointers.Vector.MoveLast | tools/modulate.py:442-444 | pops the element and appends it; a failure changes nothing |
| FunctionPointers.GetPut | tools/modulate.py:244-247 | a stored pointer reads back, in either byte order |
| FunctionPointers.ReadSection | tools/modulate.py:138-176 | fails iff section or table is cut off or a slot has no relocation, and otherwise gives slots, overridden by the first addend for each |
| FunctionPointers.ReadAddends | tools/modulate.py:162-176 | the consumed dictionary of addresses finds the first relocation of each slot |
| FunctionPointers.WriteVector | tools/modulate.py:216-264 | succeeds iff every slot has a relocation where there is a table; where section and table lie apart, it writes slots and first addends and nothing else |
| FunctionPointers.WriteSlots | tools/modulate.py:244-247 | every slot holds its pointer, all else is unchanged |
| FunctionPointers.WriteAddends | tools/modulate.py:249-264 | every matched addend holds its pointer, all else is unchanged |
| FunctionPointers.TableAt | tools/modulate.py:266-280 | the enumeration visits every relocation and fails on one that is cut off |
| FunctionPointers.TargetsKept | tools/modulate.py:257-280 | writing never changes which address a relocation fills |
| FunctionPointers.ReadBack | tools/modulate.py:138-264 | a written vector reads back as itself, with or without relocations |
| FunctionPointers.OtherKept | tools/modulate.py:127-136 | writing one vector leaves the other as it was |
| ModuleEditor.ReadVector | tools/modulate.py:138-142 | an absent section reads as an empty vector |
| ModuleEditor.Save | tools/modulate.py:127-136 | for sections that lie apart both vectors read back as given, and no other byte changes |
| ModuleEditor.ApplyRequests | tools/modulate.py:89-97 | requests act on the vector they name, in order, and the run fails iff one of them does |
| ModuleEditor.Edit | tools/modulate.py:83-102 | a run succeeds iff both vectors can be read and every move finds its function; without requests it shows both vectors, otherwise, for sections that lie apart, the output reads back with the moved vectors |
| ModuleEditor.EditPermutes | tools/modulate.py:438-456 | from file to file both vectors are permuted, and unnamed elements keep their order |
| Trie.Tree.constructor | src/compiler/symbol-replacer/trie.go:13-19 | an empty trie |
| Trie.Tree.Insert | src/compiler/symbol-replacer/trie.go:21-31 | adds or replaces exactly one entry |
| Trie.Tree.Reach | src/compiler/symbol-replacer/trie.go:22-28 | walks to the pattern's node, adding only fresh nodes |
| Trie.Tree.Search | src/compiler/symbol-replacer/trie.go:33-52 | finds the longest entry at any place, in or after the data, with its value, or none |
| Trie.Tree.NoFurther | src/compiler/symbol-replacer/trie.go:39-42 | where the walk falls off the trie no longer entry can match |
| Trie.LongestIsLongestPattern | src/compiler/symbol-replacer/trie.go:33-52 | no inserted pattern that starts there is longer, and the match is one of them |
| Trie.InsertAll | src/compiler/symbol-replacer/main.go:34-66 | after any inserts the entries are the patterns inserted, each with its latest value |
| Trie.FindLongest | src/compiler/symbol-replacer/main.go:34-84 | any inserts and then a search find the longest inserted pattern that stands there, with the value of its latest insert, and nothing iff no pattern but the empty one stands there |
| Trie.ReplaceAll | src/compiler/symbol-replacer/main.go:73-84 | the loop is the specified pass over a zeroed buffer for any entries, and replaces longest matches from left to right where replacements are as long as their patterns |
| Trie.PassIsRewrite | src/compiler/symbol-replacer/main.go:73-84 | for such entries copying into the buffer yields what lies before, followed by the leftmost longest replacement of the rest |
| Trie.RewriteKeepsLength | src/compiler/symbol-replacer/main.go:74-84 | replacements as long as their patterns keep the length of the data |
| CString.EncodeStringToCString | src/compiler/backend.go:427-514 | the loop with its literal flag builds the specified text |
| CString.WriteByte | src/compiler/backend.go:467-504 | one byte as itself, as a letter escape or in hex |
| CString.ReadByte | src/compiler/backend.go:467-504 | what a C reader makes of one written byte, in every state it can be in |
| CString.ReadNewline | src/compiler/backend.go:453-468 | closing and reopening a literal at a newline adds just the newline |
| CString.ReadText | src/compiler/backend.go:445-505 | after each byte the reader has the bytes so far, or has failed, or is short for good |
| CString.RoundTrip | src/compiler/backend.go:427-514 | a C reader without trigraphs recovers the string iff no byte written in hex is followed by a hexadecimal digit; a two-digit reader always does |
| CString.DigitIsSwallowed | src/compiler/backend.go:495-503 | two bytes that C reads as something else |
| Trigraphs.FilterIsPhase1 | src/compiler/backend.go:427-514 | replacing trigraphs character by character, holding back question marks, is replacing them in the whole text |
| Trigraphs.ReadIsPhased | src/compiler/backend.go:427-514 | reading after replacement is reading with the held marks fed last |
| Trigraphs.KeptTrigraph | src/compiler/backend.go:467-504 | where two marks are pending and a third character completes a trigraph, the string is lost |
| Trigraphs.LostByte | src/compiler/backend.go:467-504 | a string once lost stays lost, whatever bytes follow |
| Trigraphs.PhasedText | src/compiler/backend.go:445-505 | after each byte the reader has the bytes so far, or is short for good |
| Trigraphs.TrigraphRoundTrip | src/compiler/backend.go:427-514 | a C reader that replaces trigraphs recovers the string iff no byte written in hex is followed by a hexadecimal digit and the string has no trigraph; a two-digit reader iff it has no trigraph |
| Trigraphs.NothingToJoin | src/compiler/backend.go:453-513 | every line of the replaced text ends in a quotation mark, so no lines are joined in translation phase 2 |
| Trigraphs.AssignmentIsReplaced | src/compiler/backend.go:467-504 | five characters that come back as three |
| Bundle.OrderFiles | src/compiler/backend.go:341-366 | the two loops find the entrypoint and its map and order the files, or fail without an entrypoint |
| Bundle.OrderIsRight | src/compiler/backend.go:341-366 | entrypoint first, its map second if there is one, nothing lost or added |
| Bundle.OrderKeepsOthers | src/compiler/backend.go:361-366 | files with other paths keep their order |
| Bundle.WriteFiles | src/compiler/backend.go:370-386 | the loops build the specified text |
| Bundle.MakeBundle | src/compiler/backend.go:333-387 | fails iff the entrypoint is not among the files, and otherwise writes them in order, in a text that reads back iff no shown path has a newline |
| Bundle.LineReads | src/compiler/backend.go:371-376 | a table line gives back size and path |
| Bundle.RoundTrip | src/compiler/backend.go:368-386 | whatever bytes the contents have, a reader that goes by the sizes recovers every file iff no shown path has a newline |
| Bundle.ReadIsOneLine | src/compiler/backend.go:368-386 | that reader never gives a path with a newline |
| Bundle.BundleReads | src/compiler/backend.go:333-387 | from end to end: entrypoint first, its map second, the others in order, all of them, recovered iff no shown path has a newline |
| Bundle.NewlineInPathIsLost | src/compiler/backend.go:371-376 | a path that is not recovered |
| TsconfigCache.AdjustMeans | src/compiler/tsconfig.go:104-124 | what was given is kept and nothing stays open; adjusting twice is adjusting once; two sets of options come out alike iff they agree, defaults filled in, on what is not forced |
| TsconfigCache.Cache.constructor | src/compiler/tsconfig.go:31-45 | an empty cache |
| TsconfigCache.Cache.GetCompilerOptions | src/compiler/tsconfig.go:47-151 | the method takes the specified step: state, result and notification |
| TsconfigCache.CacheTracks | src/compiler/tsconfig.go:47-151 | over any history the cache holds the options and time of the file last read and the text of the one that set them |
| TsconfigCache.CacheAnswers | src/compiler/tsconfig.go:47-151 | over any history a call that reads answers as the file does, one that does not answers with the options of the file last read, and the callback is called iff a file is read whose options differ from those read before |
| TsconfigCache.OptionsAgreeIff | src/compiler/tsconfig.go:63-65 | a call agrees with a fresh read iff it reads the file or the file last read has the same options |
| TsconfigCache.SeesLastGood | src/compiler/tsconfig.go:63-151 | then the file last read has the time and the options of the last good one |
| TsconfigCache.SameTimeHidesEdit | src/compiler/tsconfig.go:63-65 | an edit that keeps the time is not seen |
| TsconfigCache.CacheAgrees | src/compiler/tsconfig.go:47-151 | over a whole history every call agrees with a fresh read iff no file with the time of the last good one differs from it in its options |
| TsconfigCache.NotifiesOfChange | src/compiler/tsconfig.go:129-149 | then the callback is called iff the options differ from the last good ones |
| TsconfigCache.DatedTells | src/compiler/tsconfig.go:63-65 | a history in which the time tells the contents is like that |
| TsconfigCache.TextAgrees | src/compiler/tsconfig.go:63-65 | over any history the answer is the file's own, text and all, iff the file was read, or has the options of the file last read and the text of the version that last changed them |
| TsconfigCache.TextGoesStale | src/compiler/tsconfig.go:129-139 | an edit that keeps the options makes a later call return the earlier text |
| Der.AppendLength | lib/base/p2p-glue.c:340-366 | the digit loops write the specified length octets, for every 64-bit length |
| Der.CollectDigits | lib/base/p2p-glue.c:353-358 | the digits end up in the nine-octet buffer, last one first |
| Der.SixtyFourBits | lib/base/p2p-glue.c:340-366 | a 64-bit length takes at most nine octets |
| Der.LengthRoundTrip | lib/base/p2p-glue.c:340-366 | a written length reads back wherever it stands |
| Der.LengthIsCanonical | lib/base/p2p-glue.c:340-366 | a strict reader accepts only what would be written |
| Der.LengthIsShortest | lib/base/p2p-glue.c:340-366 | no other definite form is shorter |
| Der.AppendInteger | lib/base/p2p-glue.c:368-387 | the loops write the specified integer, for every 64-bit value |
| Der.FillOctets | lib/base/p2p-glue.c:375-380 | a zero and the eight octets of the value |
| Der.IntegerRoundTrip | lib/base/p2p-glue.c:368-387 | the octets have the value in two's complement and no superfluous first octet |
| Der.IntegerIsShortest | lib/base/p2p-glue.c:382-386 | no other two's complement octets with that value are fewer |
| Der.AppendTlv | lib/base/p2p-glue.c:331-338 | tag, length and contents |
| Der.FirstReads | lib/base/p2p-glue.c:331-338 | the first value of some octets is taken apart where it was put together |
| Der.TreeRoundTrip | lib/base/p2p-glue.c:331-426 | every tree of values reads back as itself |
| Der.TreeIsCanonical | lib/base/p2p-glue.c:331-426 | octets that can be read are exactly those the tree would be written as |
| Certificate.UtcRoundTrip | lib/base/p2p-glue.c:401-413 | a time reads back iff its year is from 1950 to 2049 |
| Certificate.MidCenturyWraps | lib/base/p2p-glue.c:401-413 | a time in 2050 that reads back as one in 1950 |
| Certificate.AppendBitString | lib/base/p2p-glue.c:415-426 | a bit string with no unused bits |
| Certificate.BuildAlgorithmIdentifier | lib/base/p2p-glue.c:276-287 | object identifier and null |
| Certificate.BuildRdn | lib/base/p2p-glue.c:212-227 | a set of one sequence of type and value |
| Certificate.BuildName | lib/base/p2p-glue.c:198-210 | country, organization and common name |
| Certificate.BuildValidity | lib/base/p2p-glue.c:229-247 | both times |
| Certificate.BuildSubjectPublicKeyInfo | lib/base/p2p-glue.c:249-260 | algorithm and key |
| Certificate.BuildTbsCertificate | lib/base/p2p-glue.c:181-196 | the octets to be signed are those of the specified tree |
| Certificate.BuildSignedCertificate | lib/base/p2p-glue.c:262-274 | the signed octets, the algorithm and the signature |
| Certificate.BuildPrivateKeyInfo | lib/base/p2p-glue.c:289-301 | version, algorithm and key |
| Certificate.CertificateReads | lib/base/p2p-glue.c:181-287 | for every key, signature and dates the certificate reads back as its tree |
| Certificate.PrivateKeyReads | lib/base/p2p-glue.c:289-301 | for every key the wrapper reads back as its tree |
| Certificate.GenerateCertificate | lib/base/p2p-glue.c:62-108 | both outputs read back, the signature being over exactly the octets that stand first in the certificate |

## Left out

- The line regexes, comment stripping and the joining of continuation lines are parameters of the preprocessor model; so is the tokenizer of `#if` expressions with its `BITS_PER_LONG` substitution.
- Bit operators, shifts and the division that goes through floating point are parameters of the expression model; the parsing and evaluation results hold for any choice of them.
- The syscall signature tables of the bindings generator (pairing numbers with names per architecture, expanding 64-bit arguments into pairs, padding to six arguments) are not modelled.
- Stdio.Stream.Setvbuf: a buffer supplied by the caller is modelled by its size and by who owns it; the buffers of a stream are sequence values, so aliasing between them and other memory is not captured.
- Opening and closing streams, locks, wide characters, formatted output and the shared standard streams of the libc shim are not modelled.
- Interrupted system calls are retried below the modelled descriptor, and a write that succeeds is taken to make progress.
- UTF-8 and UTF-16 conversion are taken as bijections; arguments and variables are sequences of characters or code units without zeros.
- The COFF headers and symbol names that lead to the `.pdata` layout are parameters, as is finding the ELF sections and symbol names with external tools.
- The Mach-O side of the module editor, with its pointer encodings, is not modelled.
- ModuleEditor.Edit: says of overlapping sections, which the System V ABI forbids in an ELF file, only when the run succeeds and how long the output is. The same holds for ModuleEditor.Save, and for FunctionPointers.WriteVector where the section overlaps the relocation table.
- Choosing the symbols to replace, and the replacements `flipAlpha` makes for them, are parameters of the trie model.
- Trigraphs.TrigraphRoundTrip: the C reader refuses universal character names. The writer writes none, but replacing a trigraph makes `??/u` the start of one; such a string is lost with the reader of this model because it has a trigraph.
- The hexadecimal byte list of `encodeStringToHexBytes` and the base64 lines of `frida_pem_encode` are not modelled.
- The path arithmetic of the bundle writer is a parameter, each file carrying the path it is shown under.
- TsconfigCache.CacheAnswers: the parser is a function of the text of the file, so configurations that the file extends are not tracked.
- Key generation, signing, broken-down time and base64 are parameters or left out of the certificate model.
- Injectors, helper processes, device and process enumeration, and code that forwards to foreign libraries are not modelled.
