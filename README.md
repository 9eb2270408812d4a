# TxtConverter content engine, modelled in Dafny

TxtConverter packs a source tree into compact text for a language model.
This project models the part that decides what goes in and how each file
is shortened:

- **FileScanner** (`file_scanner.dfy`, module `FileScanning`) turns the
  extension and ignored-folder settings into normal form. It walks a
  directory tree, keeps the files that match and skips ignored and dot
  folders, then sorts the paths.
- **FileTreeNode** (`file_tree.dfy`, module `FileTreeModel`) is the
  tri-state check box of the selection tree. A node's value is pushed
  down to its children, and parents are recalculated upwards.
- **CompressionFactory** (`compression_factory.dfy`) picks a strategy
  from the compression level and the file's extension.
- **FileContentProcessor** (`content_processor.dfy`, module
  `ContentProcessing`) reads the file, normalises its line endings and
  runs that strategy.
- The strategies:
  - **NoCompressionStrategy** (`no_compression.dfy`);
  - **SmartCompressionStrategy** (`smart_compression.dfy`), which
    collapses blank-line runs and trims;
  - **GeneralCodeStrategy** (`general_code.dfy`), which removes block
    comments, comment lines and blank lines, aware of
    whitespace-sensitive languages;
  - **CsCompactConverter** (`cs_compact.dfy`), which removes comments
    and merges a lone `{` into the line before it;
  - **UnityCompactConverter**, which parses a Unity scene or prefab into
    records keyed by file id, links transforms to their parents and
    prints the GameObject hierarchy. It is split across four files:
    - `unity_text.dfy`: the regexes and the string helpers;
    - `unity_records.dfy`: the per-block parser;
    - `unity_tree.dfy`: linking and the preorder printout, as functions;
    - `unity_converter.dfy`: the converter class with its loops.
- Shared helpers:
  - `wrappers.dfy`: Option and Result;
  - `text.dfy`: Trim, Split, Join, ToLower, IndexOf and numerals over
    `seq<char>`;
  - `dict.dfy`: an insertion-ordered dictionary;
  - `comments.dfy`: the non-greedy block-comment regex, as a scanner;
  - `paths.dfy`: Path.GetExtension and Path.GetFileName.

Code that works by updating state keeps that form:
- `FileTree`, `FileScanner`, `UnityCompactConverter` and
  `FileContentProcessor` are classes whose methods update fields or run
  the source's loops.
- Each such method is proved against a specification function.
- The properties are proved as lemmas about those functions.

The main results:
- **Unity conversion:** printing visits every transform reachable from a
  root exactly once, in preorder. It terminates even without a visited
  set, because a parent id is a function.
- **Selection tree:** in a consistent tree (every parent equal to the
  aggregate of its children), assigning true or false keeps the tree
  consistent and sets the whole subtree.
- **Directory walk:** the walk is sound and complete for "matching files
  under folders that are not skipped".
- **Extension rules:** the strategy choice and the extension matching
  are exact, case-insensitive if-and-only-if characterisations.
- **Compactors:** Trim, the block-comment remover and the Smart strategy
  only delete characters (`Text.TrimIsSubsequence`,
  `BlockComments.StripIsSubsequence`,
  `SmartCompressionStrategy.ProcessIsSubsequence`). The C# compactor does
  not: its brace merge inserts a space before the `{`. Its output is
  characterised line by line instead (`CsCompactConverter.CompactedLines`,
  `CsCompactConverter.MergeKeepsWords`). The general strategy's output is
  its kept lines (`GeneralCodeStrategy.CompactedLines`). Smart and None
  are idempotent; the comment remover is not, and a concrete lemma shows
  it.

Behaviour of the code worth noting:
- The brace merge does not look at the previous line, so a `{` is merged
  onto a line that ends in a `//` comment
  (`CsCompactConverter.MergeAfterComment`).
- Children are linked in store order.
- No visited set is needed when printing: a parent id is a function, so
  no chain from a root repeats an id (`UnityTree.ChainDistinct`) and each
  reachable transform is printed once (`UnityTree.PrintedExactlyOnce`).
- FileContentProcessor catches nothing: a missing file is its only error
  result.
- The block-comment remover is not idempotent
  (`BlockComments.StripNotIdempotent`).

## Model

| member | source | states |
|---|---|---|
| Text.TrimStart | TxtConverter/Core/Logic/Processing/Strategies/GeneralCodeStrategy.cs:55 | the suffix left after the leading whitespace; what was cut is blank and the result does not start with whitespace |
| Text.TrimEnd | TxtConverter/Core/Logic/Processing/Strategies/GeneralCodeStrategy.cs:45 | the prefix left before the trailing whitespace; what was cut is blank and the result does not end with whitespace |
| Text.Trim | TxtConverter/Core/Logic/Csharp/CsCompactConverter.cs:24 | the result has no whitespace at either end and is no longer than the input |
| Text.TrimSlice | TxtConverter/Core/Logic/Csharp/CsCompactConverter.cs:24 | Trim keeps exactly the slice between the leading and the trailing whitespace |
| Text.TrimEmptyIffBlank | TxtConverter/Core/Logic/Csharp/CsCompactConverter.cs:24-27 | a line trims to the empty string exactly when it is blank |
| Text.TrimmedFixed | TxtConverter/Core/Logic/Processing/Strategies/SmartCompressionStrategy.cs:16 | trimming already trimmed text changes nothing |
| Text.TrimIdempotent | TxtConverter/Core/Logic/Processing/Strategies/SmartCompressionStrategy.cs:16 | trimming twice is trimming once |
| Text.TrimOfTrimEnd | TxtConverter/Core/Logic/Processing/Strategies/GeneralCodeStrategy.cs:36-45 | the trimmed form of a right-trimmed line is the trimmed line |
| Text.TrimIsSubsequence | TxtConverter/Core/Logic/Processing/Strategies/SmartCompressionStrategy.cs:16 | Trim only deletes characters |
| Text.IndexOf | TxtConverter/Core/Logic/Unity/UnityCompactConverter.cs:222 | the first position of the character, or -1 exactly when it does not occur |
| Text.IndexOfAfter | TxtConverter/Core/Logic/Unity/UnityCompactConverter.cs:222 | in a key, a colon and a value the first colon is the one after the colon-free key |
| Text.Lower | TxtConverter/Core/Logic/Processing/CompressionFactory.cs:28 | ToLower keeps the length and lower-cases each character in place |
| Text.Split | TxtConverter/Core/Logic/Processing/Strategies/GeneralCodeStrategy.cs:28 | Split('\n') yields at least one piece and no piece holds the separator |
| Text.JoinSplit | TxtConverter/Core/Logic/Processing/Strategies/GeneralCodeStrategy.cs:28 | joining the pieces of a split with the separator gives back the text |
| Text.SplitJoin | TxtConverter/Core/Logic/Processing/Strategies/GeneralCodeStrategy.cs:28 | splitting a join of separator-free pieces gives back the pieces |
| Text.JoinSnoc | TxtConverter/Core/Logic/Csharp/CsCompactConverter.cs:51-53 | appending a piece to a join adds the separator only when there was a piece before |
| Text.BreakIndex | TxtConverter/Core/Logic/Csharp/CsCompactConverter.cs:16 | the first '\r' or '\n', with no line break before it |
| Text.NonEmptyLines | TxtConverter/Core/Logic/Csharp/CsCompactConverter.cs:16 | splitting on '\r' and '\n' without empty entries yields non-empty, break-free lines |
| Text.NonEmptyLinesOfJoin | TxtConverter/Core/Logic/Csharp/CsCompactConverter.cs:16 | splitting a newline-join of non-empty break-free lines gives back the lines |
| Text.NatToString | TxtConverter/Core/Logic/Unity/UnityCompactConverter.cs:75 | the decimal text of a count is a non-empty run of digits |
| Text.NatToStringRoundTrip | TxtConverter/Core/Logic/Unity/UnityCompactConverter.cs:75 | reading the decimal text back gives the count |
| Paths.FileName | TxtConverter/Core/Logic/Processing/Strategies/GodotStrategy.cs:16 | GetFileName is the suffix after the last separator, holding no separator |
| Paths.GetExtension | TxtConverter/Core/Logic/Processing/CompressionFactory.cs:28 | GetExtension is empty, or a '.' and at least one more character ending the path, with no other '.' and no separator |
| Paths.GetExtensionOfFileName | TxtConverter/Core/Logic/Processing/CompressionFactory.cs:28 | the backward scan equals the extension read off the file name from its last '.', none when the name has no dot or ends with it |
| Paths.GetExtensionOfJoined | TxtConverter/Core/Logic/Processing/CompressionFactory.cs:28 | the extension of dir/base.ext is .ext |
| Paths.ExtensionScanFrom | TxtConverter/Core/Logic/FileScanner.cs:82 | a '.' followed to the end by at least one character that is neither a dot nor a separator starts the extension |
| Dict.Empty | TxtConverter/Core/Logic/Unity/UnityCompactConverter.cs:19 | the new dictionary has no key |
| Dict.Put | TxtConverter/Core/Logic/Unity/UnityCompactConverter.cs:133 | indexer assignment sets the value; a new key goes last, an existing key keeps its place |
| Dict.PutPut | TxtConverter/Core/Logic/Unity/UnityCompactConverter.cs:133 | writing a key twice is writing the second value in the first write's place |
| Dict.CountIsCardinality | TxtConverter/Core/Logic/Unity/UnityCompactConverter.cs:75 | Count is the number of distinct keys stored |
| Dict.DistinctWithin | TxtConverter/Core/Logic/Unity/UnityCompactConverter.cs:75 | a repetition-free sequence drawn from another is no longer than it |
| BlockComments.FindClose | TxtConverter/Core/Logic/Csharp/CsCompactConverter.cs:8 | the first closer at or after the position, or -1 when there is none |
| BlockComments.StripBlockComments | TxtConverter/Core/Logic/Csharp/CsCompactConverter.cs:8-13 | removing comments never makes the text longer |
| BlockComments.StripWithoutOpener | TxtConverter/Core/Logic/Csharp/CsCompactConverter.cs:8-13 | text without an opener passes through unchanged |
| BlockComments.StripWithoutCloser | TxtConverter/Core/Logic/Csharp/CsCompactConverter.cs:8-13 | text without a closer passes through unchanged |
| BlockComments.StripPrefix | TxtConverter/Core/Logic/Csharp/CsCompactConverter.cs:8-13 | opener-free text in front is copied, and the rest is stripped on its own |
| BlockComments.StripStep | TxtConverter/Core/Logic/Csharp/CsCompactConverter.cs:8-13 | past a character that opens no comment, stripping goes on from the next one |
| BlockComments.StripComment | TxtConverter/Core/Logic/Csharp/CsCompactConverter.cs:8-13 | a complete comment is removed together with its delimiters (non-greedy: up to the first closer) |
| BlockComments.StripUnclosed | TxtConverter/Core/Logic/Csharp/CsCompactConverter.cs:8-13 | an opener with no closer after it stays with everything that follows it |
| BlockComments.StripLeadingComment | TxtConverter/Core/Logic/Csharp/CsCompactConverter.cs:8-13 | a comment at the front goes and stripping continues after it |
| BlockComments.StripIsSubsequence | TxtConverter/Core/Logic/Csharp/CsCompactConverter.cs:8-13 | the remover only deletes characters |
| BlockComments.StripJoinsOpener | TxtConverter/Core/Logic/Csharp/CsCompactConverter.cs:8-13 | removing a comment can join a '/' before it and a '*' after it into a new opener |
| BlockComments.StripNotIdempotent | TxtConverter/Core/Logic/Csharp/CsCompactConverter.cs:8-13 | so a second pass can remove more: the remover is not idempotent |
| CsCompactConverter.Convert | TxtConverter/Core/Logic/Csharp/CsCompactConverter.cs:10-59 | the line loop over the StringBuilder and the previous line computes the compacted text |
| CsCompactConverter.CompactLinesStep | TxtConverter/Core/Logic/Csharp/CsCompactConverter.cs:21-56 | one more raw line is trimmed and emitted by the loop body |
| CsCompactConverter.EmitJoin | TxtConverter/Core/Logic/Csharp/CsCompactConverter.cs:27-55 | a skipped line leaves the text alone; a lone brace adds " {" (or "{" first); any other line adds '\n' and the line, the '\n' only when the text is non-empty |
| CsCompactConverter.CompactLinesForm | TxtConverter/Core/Logic/Csharp/CsCompactConverter.cs:24-47 | every emitted line is non-empty, trimmed, break-free and not a // comment, and no line but the first is a lone { |
| CsCompactConverter.EmitForm | TxtConverter/Core/Logic/Csharp/CsCompactConverter.cs:27-55 | emitting one trimmed break-free line keeps every emitted line in that form |
| CsCompactConverter.MergedIsEmitted | TxtConverter/Core/Logic/Csharp/CsCompactConverter.cs:37-39 | a line with " {" appended is still in emitted form and is not a lone { |
| CsCompactConverter.CompactedLines | TxtConverter/Core/Logic/Csharp/CsCompactConverter.cs:51-58 | the output read back as lines is exactly the emitted lines: single '\n' between them, none empty, no newline at either end |
| CsCompactConverter.MergeKeepsWords | TxtConverter/Core/Logic/Csharp/CsCompactConverter.cs:24-55 | joined with spaces the emitted lines read as the kept lines: merging loses no line and keeps their order |
| CsCompactConverter.MergeStep | TxtConverter/Core/Logic/Csharp/CsCompactConverter.cs:27-55 | one loop pass keeps the emitted and the kept lines reading the same |
| CsCompactConverter.CommentIsInvisible | TxtConverter/Core/Logic/Csharp/CsCompactConverter.cs:13 | removing a complete block comment gives the output of the text that never had it |
| CsCompactConverter.MergeAfterComment | TxtConverter/Core/Logic/Csharp/CsCompactConverter.cs:32-40 | the merge does not look at the previous line: a { after a trailing // note joins it |
| CsCompactConverter.RegionKept | TxtConverter/Core/Logic/Csharp/CsCompactConverter.cs:28 | lines starting with # such as #region are kept |
| GeneralCodeStrategy.KeepLine | TxtConverter/Core/Logic/Processing/Strategies/GeneralCodeStrategy.cs:36-52 | one input line contributes at most one output line |
| GeneralCodeStrategy.KeepLineSpec | TxtConverter/Core/Logic/Processing/Strategies/GeneralCodeStrategy.cs:36-52 | a line is dropped exactly when blank or a // or # comment; a kept line is not blank, not a comment, has the input line's trimmed text, and is the input with only trailing whitespace cut (whitespace-sensitive) or the trimmed input (otherwise) |
| GeneralCodeStrategy.KeptLines | TxtConverter/Core/Logic/Processing/Strategies/GeneralCodeStrategy.cs:34-53 | no more kept lines than input lines |
| GeneralCodeStrategy.Process | TxtConverter/Core/Logic/Processing/Strategies/GeneralCodeStrategy.cs:14-56 | .md and .txt get the Smart result; every other file has its block comments removed first and then goes through the line loop; the loop computes Compress |
| GeneralCodeStrategy.EmittedStep | TxtConverter/Core/Logic/Processing/Strategies/GeneralCodeStrategy.cs:34-53 | one loop pass appends the kept form of the line and '\n', or nothing for a blank or comment line |
| GeneralCodeStrategy.KeptLinesAppend | TxtConverter/Core/Logic/Processing/Strategies/GeneralCodeStrategy.cs:34-53 | kept lines follow input order: selection distributes over concatenation |
| GeneralCodeStrategy.KeptLinesForm | TxtConverter/Core/Logic/Processing/Strategies/GeneralCodeStrategy.cs:38-52 | every kept line is non-blank, has no trailing whitespace and is not a comment |
| GeneralCodeStrategy.EmittedIsTerminated | TxtConverter/Core/Logic/Processing/Strategies/GeneralCodeStrategy.cs:34-53 | the StringBuilder text is every kept line followed by '\n' |
| GeneralCodeStrategy.TerminatedJoin | TxtConverter/Core/Logic/Processing/Strategies/GeneralCodeStrategy.cs:43-53 | that text is the '\n'-join of the kept lines plus a final '\n' |
| GeneralCodeStrategy.KeptLinesBreakFree | TxtConverter/Core/Logic/Processing/Strategies/GeneralCodeStrategy.cs:28 | lines split on '\n' stay free of '\n' once kept |
| GeneralCodeStrategy.CompactedIsJoin | TxtConverter/Core/Logic/Processing/Strategies/GeneralCodeStrategy.cs:28-55 | the output is the '\n'-join of the kept lines, the first one without its indentation, or empty when none is kept |
| GeneralCodeStrategy.TrimTerminated | TxtConverter/Core/Logic/Processing/Strategies/GeneralCodeStrategy.cs:55 | the final Trim removes only the first line's indentation and the last '\n' |
| GeneralCodeStrategy.CompactedLines | TxtConverter/Core/Logic/Processing/Strategies/GeneralCodeStrategy.cs:28-55 | read back as lines, the output is exactly the kept lines in input order, the first without its indentation |
| GeneralCodeStrategy.SplitOutputLines | TxtConverter/Core/Logic/Processing/Strategies/GeneralCodeStrategy.cs:28 | splitting the output on '\n' gives back its lines |
| GeneralCodeStrategy.CompactedInsensitive | TxtConverter/Core/Logic/Processing/Strategies/GeneralCodeStrategy.cs:48-55 | for languages that ignore indentation the output is the kept trimmed lines joined by '\n' |
| GeneralCodeStrategy.FirstLineLosesIndent | TxtConverter/Core/Logic/Processing/Strategies/GeneralCodeStrategy.cs:43-55 | in a whitespace-sensitive file the first kept line still loses its indentation to the final Trim |
| SmartCompressionStrategy.Collapse | TxtConverter/Core/Logic/Processing/Strategies/SmartCompressionStrategy.cs:15 | the replace never lengthens the text, keeps it empty or non-empty, and keeps its first character |
| SmartCompressionStrategy.CollapseNoTriple | TxtConverter/Core/Logic/Processing/Strategies/SmartCompressionStrategy.cs:15 | no run of three line feeds is left after the replace |
| SmartCompressionStrategy.CollapseFixed | TxtConverter/Core/Logic/Processing/Strategies/SmartCompressionStrategy.cs:15 | text whose line-feed runs are all shorter than three is left unchanged |
| SmartCompressionStrategy.CollapseRun | TxtConverter/Core/Logic/Processing/Strategies/SmartCompressionStrategy.cs:15 | a maximal run of k line feeds becomes two when k >= 3 and stays otherwise; the rest is replaced on its own |
| SmartCompressionStrategy.CollapseAppend | TxtConverter/Core/Logic/Processing/Strategies/SmartCompressionStrategy.cs:15 | text cut where no run crosses the cut is replaced piece by piece |
| SmartCompressionStrategy.CollapseCons | TxtConverter/Core/Logic/Processing/Strategies/SmartCompressionStrategy.cs:15 | a character other than a line feed is copied |
| SmartCompressionStrategy.CollapseIsSubsequence | TxtConverter/Core/Logic/Processing/Strategies/SmartCompressionStrategy.cs:15 | the replace only deletes characters |
| SmartCompressionStrategy.Process | TxtConverter/Core/Logic/Processing/Strategies/SmartCompressionStrategy.cs:11-17 | the result is trimmed and holds no three consecutive line feeds |
| SmartCompressionStrategy.TrimNoTriple | TxtConverter/Core/Logic/Processing/Strategies/SmartCompressionStrategy.cs:16 | trimming creates no run of line feeds |
| SmartCompressionStrategy.ProcessIsSubsequence | TxtConverter/Core/Logic/Processing/Strategies/SmartCompressionStrategy.cs:15-16 | the result is the input with characters deleted |
| SmartCompressionStrategy.ProcessIdempotent | TxtConverter/Core/Logic/Processing/Strategies/SmartCompressionStrategy.cs:11-17 | compressing twice, with any paths, gives the once-compressed text |
| SmartCompressionStrategy.ProcessFiveBreaks | TxtConverter/Core/Logic/Processing/Strategies/SmartCompressionStrategy.cs:15-16 | five line feeds between two words become two |
| NoCompressionStrategy.Process | TxtConverter/Core/Logic/Processing/Strategies/NoCompressionStrategy.cs:9-12 | total and the identity: the content comes back as it is, whatever the path |
| NoCompressionStrategy.ProcessIdempotent | TxtConverter/Core/Logic/Processing/Strategies/NoCompressionStrategy.cs:11 | applying it twice, with any paths, is applying it once |
| CompressionFactory.GetStrategy | TxtConverter/Core/Logic/Processing/CompressionFactory.cs:14-55 | None gives no compression and Smart (or any undefined level) gives Smart, whatever the path; Maximum gives Godot for .tscn/.tres, Unity for .unity/.prefab, C# for .cs (lower-cased extension) and the general strategy for anything else; each iff |
| CompressionFactory.StrategyIgnoresCase | TxtConverter/Core/Logic/Processing/CompressionFactory.cs:28 | paths whose extensions differ only in case get the same strategy |
| CompressionFactory.UpperCaseCSharp | TxtConverter/Core/Logic/Processing/CompressionFactory.cs:28-46 | a .CS file is C# at level Maximum |
| CompressionFactory.NoExtensionIsGeneral | TxtConverter/Core/Logic/Processing/CompressionFactory.cs:28-50 | a file name without a dot has no extension and gets the general strategy |
| CompressionFactory.EmptyExtensionIsGeneral | TxtConverter/Core/Logic/Processing/CompressionFactory.cs:50 | no extension at level Maximum means the general strategy |
| CompressionFactory.TrailingDotIsGeneral | TxtConverter/Core/Logic/Processing/CompressionFactory.cs:28-50 | a name ending in '.' has no extension and gets the general strategy |
| ContentProcessing.ReplaceCrLf | TxtConverter/Core/Logic/Processing/FileContentProcessor.cs:36 | Replace("\r\n", "\n") never lengthens the text |
| ContentProcessing.ReplaceCr | TxtConverter/Core/Logic/Processing/FileContentProcessor.cs:36 | Replace('\r', '\n') changes every carriage return to a line feed and nothing else |
| ContentProcessing.Normalize | TxtConverter/Core/Logic/Processing/FileContentProcessor.cs:36 | no carriage return survives the normalisation |
| ContentProcessing.NormalizeIsOnePass | TxtConverter/Core/Logic/Processing/FileContentProcessor.cs:36 | the two replaces are the one-pass reading: CR LF becomes LF, a lone CR becomes LF, all else is kept |
| ContentProcessing.NormalizeFixed | TxtConverter/Core/Logic/Processing/FileContentProcessor.cs:36 | text without carriage returns is left as it is |
| ContentProcessing.NormalizeIdempotent | TxtConverter/Core/Logic/Processing/FileContentProcessor.cs:36 | normalising twice is normalising once |
| ContentProcessing.Processed | TxtConverter/Core/Logic/Processing/FileContentProcessor.cs:25-43 | a missing file fails with FileNotFound for its path, exactly when it is missing |
| ContentProcessing.ProcessedAtNone | TxtConverter/Core/Logic/Processing/FileContentProcessor.cs:25-43 | at level None the result is the file's text, normalised |
| ContentProcessing.ProcessedAtSmart | TxtConverter/Core/Logic/Processing/FileContentProcessor.cs:36-42 | at level Smart the result has no CR, is trimmed, has no triple line feed, and is a subsequence of the normalised text |
| ContentProcessing.FileContentProcessor.constructor | TxtConverter/Core/Logic/Processing/FileContentProcessor.cs:15-18 | the level is the one given |
| ContentProcessing.FileContentProcessor.RunStrategy | TxtConverter/Core/Logic/Processing/FileContentProcessor.cs:42 | running the strategy object computes what that strategy does to the text |
| ContentProcessing.FileContentProcessor.ReadAndProcess | TxtConverter/Core/Logic/Processing/FileContentProcessor.cs:25-43 | existence check, read, normalisation and dispatch give Processed for the configured level |
| UnityText.DigitRun | TxtConverter/Core/Logic/Unity/UnityCompactConverter.cs:11-14 | the greedy \d+: the digits from the position on, stopping at a non-digit or the end |
| UnityText.WhiteRun | TxtConverter/Core/Logic/Unity/UnityCompactConverter.cs:14 | the greedy \s*: the whitespace from the position on |
| UnityText.HeaderAt | TxtConverter/Core/Logic/Unity/UnityCompactConverter.cs:11 | a header found at p starts at p and ends after it, within the text |
| UnityText.HeaderAtText | TxtConverter/Core/Logic/Unity/UnityCompactConverter.cs:11 | a header found has digit-run ids, and the text it covers is "--- !u!" class " &" fileId |
| UnityText.HeaderNoBreak | TxtConverter/Core/Logic/Unity/UnityCompactConverter.cs:11 | a header holds no line feed |
| UnityText.Matches | TxtConverter/Core/Logic/Unity/UnityCompactConverter.cs:33 | the matches lie in the text, in order, without overlapping |
| UnityText.LineHeaderMember | TxtConverter/Core/Logic/Unity/UnityCompactConverter.cs:11 | the reference reading holds a header exactly when it is found at a line start |
| UnityText.SkipInsideHeader | TxtConverter/Core/Logic/Unity/UnityCompactConverter.cs:11-33 | no line starts inside a match, so resuming after it skips nothing |
| UnityText.NoLineStartBetween | TxtConverter/Core/Logic/Unity/UnityCompactConverter.cs:11 | positions that start no line contribute no header |
| UnityText.MatchesAreLineHeaders | TxtConverter/Core/Logic/Unity/UnityCompactConverter.cs:11-33 | the regex scan finds exactly the headers that begin a line, in text order |
| UnityText.HeadersIff | TxtConverter/Core/Logic/Unity/UnityCompactConverter.cs:11-34 | a header is found iff it starts a line; none is found iff no line starts with one |
| UnityText.FileIdAt | TxtConverter/Core/Logic/Unity/UnityCompactConverter.cs:14 | a value matched is digits, possibly after a minus sign |
| UnityText.ValueAt | TxtConverter/Core/Logic/Unity/UnityCompactConverter.cs:14 | the -?\d+ group is digits, possibly after a minus sign; a minus sign counts only when digits follow it |
| UnityText.ValueAtIs | TxtConverter/Core/Logic/Unity/UnityCompactConverter.cs:14 | a reference value followed by no digit is read whole at its position |
| UnityText.ExtractFrom | TxtConverter/Core/Logic/Unity/UnityCompactConverter.cs:214-218 | the value found from a position on is empty or a reference value |
| UnityText.ExtractFileId | TxtConverter/Core/Logic/Unity/UnityCompactConverter.cs:214-218 | ExtractFileId gives "" or a (possibly negative) digit run |
| UnityText.ExtractFromWitness | TxtConverter/Core/Logic/Unity/UnityCompactConverter.cs:214-218 | a value found comes from the leftmost position where the pattern matches |
| UnityText.ExtractFromNone | TxtConverter/Core/Logic/Unity/UnityCompactConverter.cs:214-218 | with no match anywhere the result is "" |
| UnityText.ExtractFileIdLeftmost | TxtConverter/Core/Logic/Unity/UnityCompactConverter.cs:214-218 | the result is non-empty iff the pattern matches somewhere, and then it is the leftmost match's value |
| UnityText.ExtractFileIdOf | TxtConverter/Core/Logic/Unity/UnityCompactConverter.cs:214-218 | in "…fileID: v…" the whole number v is read, sign included |
| UnityText.ExtractFileIdMissing | TxtConverter/Core/Logic/Unity/UnityCompactConverter.cs:214-218 | "fileID:" followed by no number gives "" |
| UnityText.ExtractFileIdParent | TxtConverter/Core/Logic/Unity/UnityCompactConverter.cs:107-108 | m_Father: {fileID: 400} gives 400 |
| UnityText.ExtractFileIdNegative | TxtConverter/Core/Logic/Unity/UnityCompactConverter.cs:113-114 | a negative component reference keeps its sign |
| UnityText.ExtractFileIdEmpty | TxtConverter/Core/Logic/Unity/UnityCompactConverter.cs:214-218 | a reference with no number gives "" |
| UnityText.GetValue | TxtConverter/Core/Logic/Unity/UnityCompactConverter.cs:220-224 | the value is trimmed, and "" when the line has no colon |
| UnityText.GetValueOf | TxtConverter/Core/Logic/Unity/UnityCompactConverter.cs:220-224 | the value of key: v is Trim(v), even when v holds colons |
| UnityText.ShortenVal | TxtConverter/Core/Logic/Unity/UnityCompactConverter.cs:226-230 | at most 20 characters; a value of at most 20 is kept, a longer one keeps its first 17 and gains "..." |
| UnityText.ShortenValIdempotent | TxtConverter/Core/Logic/Unity/UnityCompactConverter.cs:226-230 | shortening twice is shortening once |
| UnityText.ComponentNameRoundTrip | TxtConverter/Core/Logic/Unity/UnityCompactConverter.cs:187-211 | the class id can be read back from every component name, table entries and Comp#<id> alike |
| UnityText.KnownNameRoundTrip | TxtConverter/Core/Logic/Unity/UnityCompactConverter.cs:189-209 | the table entries read back to their class id |
| UnityText.KnownNameNotFallback | TxtConverter/Core/Logic/Unity/UnityCompactConverter.cs:189-210 | no table name starts with Comp# |
| UnityText.ComponentNameInjective | TxtConverter/Core/Logic/Unity/UnityCompactConverter.cs:187-211 | two different class ids never share a component name |
| UnityRecords.NewObject | TxtConverter/Core/Logic/Unity/UnityCompactConverter.cs:93 | a fresh record has an empty property table |
| UnityRecords.ScriptProperty | TxtConverter/Core/Logic/Unity/UnityCompactConverter.cs:116-130 | a recorded script field never starts with m_ and is never serializedVersion |
| UnityRecords.ParseLine | TxtConverter/Core/Logic/Unity/UnityCompactConverter.cs:99-130 | a line never changes the record's ids, class or children |
| UnityRecords.ParseLines | TxtConverter/Core/Logic/Unity/UnityCompactConverter.cs:97-131 | the lines never change the record's ids, class or children |
| UnityRecords.ParseRecord | TxtConverter/Core/Logic/Unity/UnityCompactConverter.cs:93-133 | the record has the block's class and file id and no children |
| UnityRecords.ComponentLineKind | TxtConverter/Core/Logic/Unity/UnityCompactConverter.cs:101-114 | a line starting with "- component:" is a component line: no earlier prefix in the if-chain fits it |
| UnityRecords.ParseComponents | TxtConverter/Core/Logic/Unity/UnityCompactConverter.cs:113-114 | component ids are every - component: reference, in line order, after those already there |
| UnityRecords.ParseName | TxtConverter/Core/Logic/Unity/UnityCompactConverter.cs:101-102 | the name is the value of the last m_Name: line, or stays as it was |
| UnityRecords.ParseOwner | TxtConverter/Core/Logic/Unity/UnityCompactConverter.cs:104-105 | the owner is the reference of the last m_GameObject: line |
| UnityRecords.ParseParent | TxtConverter/Core/Logic/Unity/UnityCompactConverter.cs:107-108 | the parent is the reference of the last m_Father: line |
| UnityRecords.ParseProperties | TxtConverter/Core/Logic/Unity/UnityCompactConverter.cs:116-130 | recorded script fields never start with m_, are never serializedVersion, and only a class-114 record gets any |
| UnityRecords.ParseLineProperties | TxtConverter/Core/Logic/Unity/UnityCompactConverter.cs:116-130 | one line adds at most the field ScriptProperty reads from it, and only for class 114 |
| UnityRecords.BlockEnd | TxtConverter/Core/Logic/Unity/UnityCompactConverter.cs:40 | a block ends after its header and within the text |
| UnityRecords.Store | TxtConverter/Core/Logic/Unity/UnityCompactConverter.cs:86-134 | the store stays well formed: each record under its own file id |
| UnityRecords.Pieces | TxtConverter/Core/Logic/Unity/UnityCompactConverter.cs:37-44 | one block per header |
| UnityRecords.StoreAll | TxtConverter/Core/Logic/Unity/UnityCompactConverter.cs:37-44 | the store after all blocks is well formed |
| UnityRecords.ParsePass | TxtConverter/Core/Logic/Unity/UnityCompactConverter.cs:37-44 | pass i stores the block from header i to the next header or the end of the text |
| UnityRecords.StoredKeys | TxtConverter/Core/Logic/Unity/UnityCompactConverter.cs:86-133 | stored keys are exactly the file ids of blocks whose class is not ignored |
| UnityRecords.LastDuplicateWins | TxtConverter/Core/Logic/Unity/UnityCompactConverter.cs:133 | a later block with the same file id replaces the earlier record |
| UnityRecords.AllIgnoredStoresNothing | TxtConverter/Core/Logic/Unity/UnityCompactConverter.cs:90-91 | when every block is of an ignored class (157, 196, 104, 29, 850595691) nothing is stored |
| UnityConverter.UnityCompactConverter.constructor | TxtConverter/Core/Logic/Unity/UnityCompactConverter.cs:19-20 | a new converter has no records and no output |
| UnityConverter.UnityCompactConverter.Convert | TxtConverter/Core/Logic/Unity/UnityCompactConverter.cs:22-25 | a fresh converter's run yields Converted(content) |
| UnityConverter.UnityCompactConverter.Process | TxtConverter/Core/Logic/Unity/UnityCompactConverter.cs:27-84 | the whole run on a fresh converter yields Converted(content) |
| UnityConverter.UnityCompactConverter.ParseAll | TxtConverter/Core/Logic/Unity/UnityCompactConverter.cs:36-44 | the block loop leaves the store built from every block in order |
| UnityConverter.UnityCompactConverter.ParseBlock | TxtConverter/Core/Logic/Unity/UnityCompactConverter.cs:86-134 | an ignored block leaves the store alone; another replaces the record under its file id |
| UnityConverter.UnityCompactConverter.ParseInto | TxtConverter/Core/Logic/Unity/UnityCompactConverter.cs:99-130 | the if-chain on one trimmed line computes ParseLine |
| UnityConverter.UnityCompactConverter.LinkTransforms | TxtConverter/Core/Logic/Unity/UnityCompactConverter.cs:51-69 | the roots are the root transforms in store order, and every resolvable parent gains its child transforms in store order |
| UnityConverter.UnityCompactConverter.PrintRoots | TxtConverter/Core/Logic/Unity/UnityCompactConverter.cs:78-81 | the output gains the subtree lines of every root, in order |
| UnityConverter.UnityCompactConverter.PrintTree | TxtConverter/Core/Logic/Unity/UnityCompactConverter.cs:136-185 | the output gains the transform's line at its depth, then each child's subtree; termination through the chain from the root, bounded by the store size |
| UnityConverter.UnityCompactConverter.PrintChild | TxtConverter/Core/Logic/Unity/UnityCompactConverter.cs:181-184 | one pass of the children loop gains the child's subtree lines, one level deeper |
| UnityConverter.UnityCompactConverter.WriteLine | TxtConverter/Core/Logic/Unity/UnityCompactConverter.cs:139-179 | the output gains the indented line naming the GameObject and its other components |
| UnityConverter.UnityCompactConverter.ComponentNames | TxtConverter/Core/Logic/Unity/UnityCompactConverter.cs:152-171 | the labels of the listed components, skipping the transform itself and unresolved ids |
| UnityConverter.ParsedHaveNoChildren | TxtConverter/Core/Logic/Unity/UnityCompactConverter.cs:241 | records fresh from parsing have no children |
| UnityTree.KidsMembers | TxtConverter/Core/Logic/Unity/UnityCompactConverter.cs:53-69 | the kids of the empty chain are the root transforms; those of a chain are the transforms linking to its last id |
| UnityTree.KidsDistinct | TxtConverter/Core/Logic/Unity/UnityCompactConverter.cs:53-69 | no transform is listed twice among the kids |
| UnityTree.WithChildrenSkeleton | TxtConverter/Core/Logic/Unity/UnityCompactConverter.cs:63-66 | linking changes nothing but children |
| UnityTree.LinkStep | TxtConverter/Core/Logic/Unity/UnityCompactConverter.cs:63-66 | linking one more record adds it to its parent's children when its parent id resolves, and changes nothing otherwise |
| UnityTree.LinkPass | TxtConverter/Core/Logic/Unity/UnityCompactConverter.cs:53-69 | pass i of the linking loop: the record read is as parsed but for its children; it joins the roots if a root, its parent's children if the parent resolves |
| UnityTree.WithChildrenAt | TxtConverter/Core/Logic/Unity/UnityCompactConverter.cs:63-66 | after linking, a record's children are its child transforms among the linked keys, in order |
| UnityTree.WithChildrenLinks | TxtConverter/Core/Logic/Unity/UnityCompactConverter.cs:53-69 | once all keys are linked every record's children are exactly its child transforms |
| UnityTree.ChainNoRepeat | TxtConverter/Core/Logic/Unity/UnityCompactConverter.cs:57-65 | no id repeats along a chain from a root: each step's single parent is the step before |
| UnityTree.ChainDistinct | TxtConverter/Core/Logic/Unity/UnityCompactConverter.cs:57-65 | a chain from a root is repetition-free |
| UnityTree.ChainBound | TxtConverter/Core/Logic/Unity/UnityCompactConverter.cs:181-184 | a chain is never longer than the store, so printing terminates |
| UnityTree.ChainUnique | TxtConverter/Core/Logic/Unity/UnityCompactConverter.cs:57-65 | only one chain ends at a given id: the reachable structure is a forest |
| UnityTree.PreorderDistinct | TxtConverter/Core/Logic/Unity/UnityCompactConverter.cs:181-184 | the chains PrintTree visits from one chain are pairwise different |
| UnityTree.ChainInPreorder | TxtConverter/Core/Logic/Unity/UnityCompactConverter.cs:78-184 | every chain from a root is visited |
| UnityTree.PrintedIds | TxtConverter/Core/Logic/Unity/UnityCompactConverter.cs:78-81 | one printed id per visited chain |
| UnityTree.PrintedChains | TxtConverter/Core/Logic/Unity/UnityCompactConverter.cs:78-184 | the printed chains are exactly the chains from a root |
| UnityTree.PrintedExactlyOnce | TxtConverter/Core/Logic/Unity/UnityCompactConverter.cs:78-184 | a transform is printed iff a chain from a root reaches it, and none is printed twice |
| UnityTree.OrphanEndsNoChain | TxtConverter/Core/Logic/Unity/UnityCompactConverter.cs:63-67 | no chain ends at a transform whose real parent id names no record |
| UnityTree.OrphanNeverPrinted | TxtConverter/Core/Logic/Unity/UnityCompactConverter.cs:63-67 | such a transform is silently never printed |
| UnityTree.OnlyTransformsPrinted | TxtConverter/Core/Logic/Unity/UnityCompactConverter.cs:55 | only transforms (class 4 or 224) are printed |
| UnityTree.Indent | TxtConverter/Core/Logic/Unity/UnityCompactConverter.cs:183 | two spaces per level |
| UnityTree.LineTexts | TxtConverter/Core/Logic/Unity/UnityCompactConverter.cs:147-179 | one line per chain |
| UnityTree.TreeLinesArePreorder | TxtConverter/Core/Logic/Unity/UnityCompactConverter.cs:136-185 | PrintTree writes the lines of the visited chains in preorder, each at its depth |
| UnityTree.ForestLinesAreForest | TxtConverter/Core/Logic/Unity/UnityCompactConverter.cs:181-184 | the children's subtrees are written one after the other |
| UnityTree.TreeStart | TxtConverter/Core/Logic/Unity/UnityCompactConverter.cs:147-184 | a subtree's lines are its line, then the subtrees of the children linking recorded |
| UnityTree.ChildStep | TxtConverter/Core/Logic/Unity/UnityCompactConverter.cs:181-184 | each child extends the chain by one level within the store size and is indented two more spaces |
| UnityTree.RootStep | TxtConverter/Core/Logic/Unity/UnityCompactConverter.cs:78-81 | each root starts a chain of its own |
| UnityTree.UnknownOwnerLine | TxtConverter/Core/Logic/Unity/UnityCompactConverter.cs:139-179 | a transform whose GameObject id is empty or unresolved prints as an indented bare Unknown line |
| UnityTree.ComponentLabelsEmpty | TxtConverter/Core/Logic/Unity/UnityCompactConverter.cs:150-176 | no labels, so no brackets, exactly when every listed component is the transform itself or unresolved |
| UnityTree.PropertyTextsShort | TxtConverter/Core/Logic/Unity/UnityCompactConverter.cs:163-230 | each script field prints as key:value with the value shortened to at most 20 characters |
| UnityTree.Summary | TxtConverter/Core/Logic/Unity/UnityCompactConverter.cs:72-76 | the summary text is trimmed |
| UnityTree.RenderedIsLines | TxtConverter/Core/Logic/Unity/UnityCompactConverter.cs:78-83 | the StringBuilder holds one line per printed chain, in printing order |
| UnityTree.Converted | TxtConverter/Core/Logic/Unity/UnityCompactConverter.cs:27-84 | text without a header comes back unchanged; otherwise the result is trimmed |
| UnityTree.NoHeaderPassThrough | TxtConverter/Core/Logic/Unity/UnityCompactConverter.cs:33-34 | text in which no line starts with a header is returned as it is |
| UnityTree.AllIgnoredSummary | TxtConverter/Core/Logic/Unity/UnityCompactConverter.cs:72-91 | headers of ignored classes only: no root, so the summary with "Objects found: 0" |
| CsCompactConverter.EmitLine | TxtConverter/Core/Logic/Csharp/CsCompactConverter.cs:27-55 | one pass of the loop body extends the StringBuilder and the previous line exactly as Emit extends the emitted lines |
| FileTreeModel.Aggregate | TxtConverter/Core/Models/FileTreeNode.cs:69-88 | the recalculated state is true iff every child is checked (also with no children), false iff there are children and all are unchecked, null otherwise |
| FileTreeModel.Recalc | TxtConverter/Core/Models/FileTreeNode.cs:67-96 | a node already holding its children's aggregate leaves the tree as it is; otherwise the node changes and its parent recalculates |
| FileTreeModel.Push | TxtConverter/Core/Models/FileTreeNode.cs:52-65 | visiting one child keeps one value per node |
| FileTreeModel.PushChildren | TxtConverter/Core/Models/FileTreeNode.cs:52-65 | UpdateChildren keeps one value per node |
| FileTreeModel.Assigned | TxtConverter/Core/Models/FileTreeNode.cs:22-44 | assigning the value a node already holds changes nothing |
| FileTreeModel.SetSub | TxtConverter/Core/Models/FileTreeNode.cs:52-65 | the reference result of a push: the subtree set, one value per node |
| FileTreeModel.AggFrame | TxtConverter/Core/Models/FileTreeNode.cs:67-88 | the recalculated state depends only on the children's values |
| FileTreeModel.AggUniform | TxtConverter/Core/Models/FileTreeNode.cs:69-88 | children that all hold one value give that value |
| FileTreeModel.UniformBelow | TxtConverter/Core/Models/FileTreeNode.cs:52-96 | in a consistent subtree whose root holds true or false, every node holds it |
| FileTreeModel.SetSubAt | TxtConverter/Core/Models/FileTreeNode.cs:52-65 | setting a whole subtree to one value leaves every node consistent except possibly the subtree root's parent |
| FileTreeModel.PushChildrenAfterSet | TxtConverter/Core/Models/FileTreeNode.cs:29-65 | after the node itself is set, UpdateChildren sets exactly its subtree, provided the tree below it was consistent |
| FileTreeModel.PushSets | TxtConverter/Core/Models/FileTreeNode.cs:57-63 | one visited child ends with its whole subtree holding the value |
| FileTreeModel.PushChildrenSets | TxtConverter/Core/Models/FileTreeNode.cs:55-64 | UpdateChildren from the i-th child on sets exactly those children's subtrees and nothing else |
| FileTreeModel.RecalcFrame | TxtConverter/Core/Models/FileTreeNode.cs:67-96 | RecalculateState changes only the node and the nodes above it |
| FileTreeModel.RecalcSetsAggregate | TxtConverter/Core/Models/FileTreeNode.cs:67-96 | after RecalculateState the node holds its children's aggregate |
| FileTreeModel.RecalcRestores | TxtConverter/Core/Models/FileTreeNode.cs:67-96 | a tree consistent everywhere but at the node is consistent after the node recalculates: the climb stops where nothing changes |
| FileTreeModel.AssignPreservesConsistency | TxtConverter/Core/Models/FileTreeNode.cs:22-44 | assigning true or false anywhere in a consistent tree leaves every parent holding its children's aggregate |
| FileTreeModel.AssignSetsSubtree | TxtConverter/Core/Models/FileTreeNode.cs:22-65 | in a consistent tree, assigning true or false gives the node and everything below it that value |
| FileTreeModel.AssignNullOnlyClimbs | TxtConverter/Core/Models/FileTreeNode.cs:22-44 | assigning null leaves the node null, pushes nothing down, and changes only nodes above it |
| FileTreeModel.InitialConsistent | TxtConverter/Core/Models/FileTreeNode.cs:18 | the starting state, every node unchecked, is consistent |
| FileTreeModel.FileTree.constructor | TxtConverter/Core/Models/FileTreeNode.cs:18-19 | every node starts unchecked and expanded |
| FileTreeModel.FileTree.SetExpanded | TxtConverter/Core/Models/FileTreeNode.cs:46-50 | only that node's expansion flag changes |
| FileTreeModel.FileTree.RecalculateState | TxtConverter/Core/Models/FileTreeNode.cs:67-96 | the children loop and the climb compute Recalc; nothing else changes |
| FileTreeModel.FileTree.UpdateChildren | TxtConverter/Core/Models/FileTreeNode.cs:52-65 | the children loop computes PushChildren; nothing else changes |
| FileTreeModel.FileTree.SetChecked | TxtConverter/Core/Models/FileTreeNode.cs:22-44 | the setter computes Assigned, and a true or false assignment keeps a consistent tree consistent |
| FileScanning.TrimStartDots | TxtConverter/Core/Logic/FileScanner.cs:15 | the suffix left after the leading dots; the result does not start with a dot |
| FileScanning.LowerIdempotent | TxtConverter/Core/Logic/FileScanner.cs:15 | lower-cased text is lower-case and lower-casing it again changes nothing |
| FileScanning.NormalizeExtension | TxtConverter/Core/Logic/FileScanner.cs:15 | a normalised entry is lower-case and does not start with a dot |
| FileScanning.NormalizeExtensions | TxtConverter/Core/Logic/FileScanner.cs:13-16 | the normalised list is no longer than the given one, and every entry is non-empty, lower-case and dot-free at the front |
| FileScanning.NormalizeExtensionsMembers | TxtConverter/Core/Logic/FileScanner.cs:13-16 | an entry is in the normalised list iff it is the non-empty normal form of a given entry |
| FileScanning.NormalizeFolders | TxtConverter/Core/Logic/FileScanner.cs:19-24 | the ignore set holds every given folder trimmed and lower-cased, and the output folder, all lower-case |
| FileScanning.OutputFolderSkipped | TxtConverter/Core/Logic/FileScanner.cs:24-68 | the output folder is skipped whatever its case |
| FileScanning.DotFolders | TxtConverter/Core/Logic/FileScanner.cs:64-68 | a dot-folder other than .gitignore is always skipped; .gitignore only when listed |
| FileScanning.IsFileMatchIgnoresCase | TxtConverter/Core/Logic/FileScanner.cs:76-91 | matching does not depend on the case of the file name |
| FileScanning.LowerOfDotted | TxtConverter/Core/Logic/FileScanner.cs:79-82 | lower-casing a stem, a dot and an extension lower-cases each part |
| FileScanning.DottedNameMatch | TxtConverter/Core/Logic/FileScanner.cs:76-91 | a name with a dot-free extension matches iff it ends in .md, its lower-cased extension is listed, or its lower-cased name is listed |
| FileScanning.ExtensionOfDotted | TxtConverter/Core/Logic/FileScanner.cs:82 | the extension read from such a name is the dot and the lower-cased extension |
| FileScanning.ListedExtensionMatches | TxtConverter/Core/Logic/FileScanner.cs:13-85 | an extension given in any case and with or without its dot lets its files through in any case |
| FileScanning.UndottedNameMatch | TxtConverter/Core/Logic/FileScanner.cs:76-91 | a name without a dot matches iff its lower-cased name is listed |
| FileScanning.LowerKeepsNoDot | TxtConverter/Core/Logic/FileScanner.cs:79 | lower-casing adds no dot |
| FileScanning.DotOfExtension | TxtConverter/Core/Logic/FileScanner.cs:79-85 | a name with an extension or ending in .md holds a dot |
| FileScanning.Matched | TxtConverter/Core/Logic/FileScanner.cs:47-57 | no more paths than files looked at |
| FileScanning.MatchedMembers | TxtConverter/Core/Logic/FileScanner.cs:47-57 | a path is appended iff it is the full name of a file that matches |
| FileScanning.UnderSubdir | TxtConverter/Core/Logic/FileScanner.cs:60-73 | a file under an entered subdirectory is under the directory |
| FileScanning.FileSource | TxtConverter/Core/Logic/FileScanner.cs:47-57 | a path from the files loop is a matching file of the directory |
| FileScanning.CollectStep | TxtConverter/Core/Logic/FileScanner.cs:60-73 | a path found after a subdirectory was found before it or in the walk of that subdirectory, which was entered |
| FileScanning.CollectSource | TxtConverter/Core/Logic/FileScanner.cs:44-74 | every path collected so far comes from a matching file under the directory |
| FileScanning.StepSource | TxtConverter/Core/Logic/FileScanner.cs:60-73 | either case of CollectStep leads to a matching file under the directory |
| FileScanning.SubdirSource | TxtConverter/Core/Logic/FileScanner.cs:70-72 | a path from an entered subdirectory's walk comes from a matching file under the directory |
| FileScanning.WalkSound | TxtConverter/Core/Logic/FileScanner.cs:44-74 | every path the walk yields is a matching file reachable through folders that are not skipped |
| FileScanning.CollectComplete | TxtConverter/Core/Logic/FileScanner.cs:47-57 | every matching file of the directory itself is collected |
| FileScanning.WalkComplete | TxtConverter/Core/Logic/FileScanner.cs:44-74 | every matching file reachable through folders that are not skipped is yielded |
| FileScanning.Insert | TxtConverter/Core/Logic/FileScanner.cs:39 | inserting into a sorted list keeps it sorted and adds exactly that element |
| FileScanning.SortBy | TxtConverter/Core/Logic/FileScanner.cs:39 | the reference sort: sorted, and the same strings with the same multiplicities |
| FileScanning.FileScanner.constructor | TxtConverter/Core/Logic/FileScanner.cs:10-25 | the scanner keeps the normalised extension list and ignore set, and filters built from them |
| FileScanning.FileScanner.AddMatchingFiles | TxtConverter/Core/Logic/FileScanner.cs:47-57 | the files loop appends the matching files' full names, in order |
| FileScanning.FileScanner.WalkDirectory | TxtConverter/Core/Logic/FileScanner.cs:44-74 | the recursive walk appends Walk of the directory |
| FileScanning.FileScanner.ScanAsync | TxtConverter/Core/Logic/FileScanner.cs:27-42 | a missing root gives the empty list; otherwise the walk's paths sorted by the comparer, none lost or added |

## Left out

- Character classes: whitespace, digits and ToLower cover ASCII only. .NET's Unicode whitespace and culture-aware lower-casing are not modelled, and neither is UTF-8 decoding (`File.ReadAllText`).
- UnityText.ShortenVal: .NET's `Length` and `Substring` count UTF-16 code units, the model counts characters (Unicode scalar values). A value of 15 characters outside the Basic Multilingual Plane has Length 30 and is shortened by the source but kept by the model. The source can also cut a surrogate pair in half, which a Dafny string cannot hold.
- Prefix and suffix tests: `StartsWith(string)` and `EndsWith(string)` in the source (the dot-folder and `.md` tests of FileScanner, the line tests of the Unity converter, the comment tests of the general strategy and the C# compactor) compare culture-sensitively. Under ICU, characters of zero weight such as U+00AD (soft hyphen) are ignored, so `"\u00AD."` counts as starting with `"."`. The model compares characters exactly.
- File system:
  - The files FileContentProcessor reads are a map from path to content.
  - A missing file is the `FileNotFound` failure; the source throws FileNotFoundException.
  - Other read errors (access, sharing, encoding) are not modelled.
  - FileScanner's directory tree is a value (`FileScanning.Dir`). A directory whose enumeration is refused access (`UnauthorizedAccessException`, the only exception caught) is modelled by the entries it yields before that.
  - Any other enumeration error (`IOException`, `DirectoryNotFoundException` after a concurrent delete, `PathTooLongException`) propagates out of `WalkDirectory` and faults `ScanAsync` in the source. The model has no such failure: every directory value yields its entries.
- GodotCompactConverter is not part of this model. The Godot strategy is a function parameter applied to the content and `Path.GetFileName` of the path.
- The try/catch fallbacks of the Unity, C# and Godot strategy wrappers, which return the content unchanged, are not modelled. The modelled converters are total functions, so those fallbacks are unreachable for them.
- Regular expressions (the Unity header and fileID patterns, the block-comment pattern, the Smart line-feed pattern) are hand-written scanners. They are proved to pick the same leftmost, greedy or non-greedy matches.
- FileScanning.SortBy: `List.Sort` with the default culture comparer is an abstract total preorder. The model proves the result sorted and a permutation; the order .NET's unstable sort gives to equal-comparing strings is not modelled.
- FileScanning.FileScanner.ScanAsync: runs synchronously; the thread-pool wrapper that makes the scan asynchronous is left out.
- FileScanning.FileScanner.WalkDirectory:
  - The results list is passed in and returned as a value, not shared by reference.
  - The files loop is the separate method `AddMatchingFiles`.
- FileScanning.FileScanner.constructor: the two filters (IsFileMatch and the skip rule) are function-valued fields fixed by the constructor.
- Dict: `Dictionary<string, T>` enumerates in first-insertion order. That is what .NET does when nothing is removed, which is the case here, but the language does not guarantee it.
- FileTreeModel:
  - Nodes are the indices of one `FileTree` object, with fixed parent and children tables.
  - Name, FullPath, IsFile and the PropertyChanged notifications are not modelled.
  - The window code that builds the tree and binds the check boxes is not part of this model.
- UnityRecords: records are values kept in the converter's dictionary. Children are held as file ids, not object references; linking happens only after parsing is complete, so the two are equivalent.
- UnityConverter.UnityCompactConverter.PrintTree:
  - The StringBuilder is a sequence of lines.
  - Termination rests on a ghost chain from the root to the node printed, which the source does not have.
  - The body of the children loop is the separate method `PrintChild`.
- CsCompactConverter.EmitLine: the loop body of `Convert`, taken out of the loop as a method. It changes the same two variables.
- ConversionOrchestrator, Converter, the report generators, the AI clients, presets, preferences, telemetry and all windows are not part of this model.
