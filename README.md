# VALD line-list tools, modelled in Dafny

This project models the text-processing core of the VALD line-list utilities:

- `TurboSort` (`VALDToTurbo.py`) merges Turbospectrum line lists. Each file is a list of
  blocks. A block is a header line whose fifth whitespace token is the number of data
  lines, then an element-key line, then the data lines. Blocks with the same key line are
  merged across files. The counts are added into the first-seen header, whose tail is
  rewritten to ten characters, and the data lines are re-sorted. The output is every entry,
  the entries sorted as Python sorts lists of strings, concatenated.
- The line filter of `VALDFormat`, `VALDCombineNoFormat` and `VALDCombineFormat`
  (`VALDLinelist.py`). It keeps the quoted lines before the "* oscillator strengths"
  trailer. `VALDFormat` also rewrites the element lines (those holding ":") and strips the
  parenthesised atomic masses from their symbols.
- The cut rule of `VALDSplit`, which cuts a line list into pieces near a size limit.
- The per-line conversion of `VALDToSpectrum` for energies in cm^-1: the species code
  and the fixed-width SPECTRUM record.

Files and folders are modelled as values. A file is the list of its lines, each keeping
its "\n". A folder is the list of its files in the order the directory listing gives them.
Output files are the lines written to them. Python exceptions become `Failure`/`None`
results or an error field beside the lines already written.

Modules:

- `Wrappers` (`wrappers.dfy`): `Option`, `Result`, `Outcome`.
- `Text` (`text.dfy`): the Python `str` behaviour the tools rely on. This covers slicing
  with clamped and negative bounds, `split()`, `int()`, `str()`, `replace`, `strip`,
  `rfind`, `index`, `in` and `"{:<w}".format`.
- `Sorting` (`sorting.dfy`): `list.sort()` on strings and on lists of strings. It is an
  insertion sort by Python's lexicographic comparison, with the uniqueness of a sorted
  permutation proved.
- `ValdToTurbo` (`turbo.dfy`): `TurboSort`. The dictionary it mutates is the class
  `Accumulator`, with a map field and the keys in insertion order. Its methods are proved
  against the specification functions `Absorb`, `AbsorbFrom`, `AbsorbAll` and `Render`.
- `ValdFormat` (`format.dfy`), `ValdSplit` (`split.dfy`) and `ValdSpectrum` (`spectrum.dfy`).
  Each loop of the source is a method proved equal to a recursive function.

The model follows the code in these points:

- A block whose declared count exceeds the remaining lines is silently truncated by the
  slice. It is not an error, and the header count is not corrected.
- The stored header is rewritten by `str.replace` over `header[27:]`, whatever its length,
  and only the result of the replacement is cut to its last ten characters or left-padded
  with spaces to ten. No count is formatted afresh. A header shorter than 27 characters
  keeps its old count and line ending and gets ten spaces appended after them.
- A key seen once keeps its data lines unsorted.
- The final order is Python list order, so the header text is compared first.

## Model

| member | source | states |
|---|---|---|
| `Text.Split` | VALDToTurbo.py:80 | `str.split()`: every token is a non-empty run of non-whitespace characters |
| `Text.SplitBeforeSpace` | VALDToTurbo.py:80 | text followed by whitespace splits independently of what follows it |
| `Text.ParseInt` | VALDToTurbo.py:80 | `int()` of a token succeeds exactly for an optional sign followed by one or more decimal digits |
| `Text.ParseIntOfString` | VALDToTurbo.py:86-89 | `int(str(n)) == n`: a count written into a header reads back as the same count |
| `Text.Slice` | VALDToTurbo.py:83 | a Python slice clamps its bounds, counts negative bounds from the end and never fails |
| `Text.ReplaceBySelf` | VALDToTurbo.py:89 | replacing a count text by itself leaves the tail unchanged |
| `Text.ReplaceAfterSpaces` | VALDToTurbo.py:89 | leading padding is untouched by the replacement of a count text |
| `Text.ReplaceEveryOccurrence` | VALDToTurbo.py:89 | `Replace` is `str.replace`, scanning left to right without overlaps; it rewrites every occurrence of the old text, not only the first: non-empty `p`, and pieces none of which holds the first character of `p`, joined by `p` become the same pieces joined by `q` |
| `ValdToTurbo.DeclaredCount` | VALDToTurbo.py:80 | reading token 4 fails with `TooFewTokens` exactly when the header has fewer than five tokens |
| `ValdToTurbo.BlockAtContents` | VALDToTurbo.py:77-84 | the block at `pos` has header `lines[pos]`, key `lines[pos+1]`, data `lines[pos+2 .. min(pos+2+count, len)]` and the next header at `pos+2+count`; the data fall short of the count exactly when the block runs past the end; which headers fail and with which error |
| `ValdToTurbo.BlockAt` | VALDToTurbo.py:78-84 | a block that is read sends the walk on to `pos + 2 + count`, past its own header and key, so the walk always advances |
| `ValdToTurbo.ReadBlock` | VALDToTurbo.py:78-84 | reading a block gives the block `BlockAt` describes |
| `ValdToTurbo.FitTen` | VALDToTurbo.py:90-98 | the rewritten tail is exactly ten characters long |
| `ValdToTurbo.FitTenContents` | VALDToTurbo.py:90-98 | the tail keeps its last ten characters when longer, and is left-padded with spaces when shorter |
| `ValdToTurbo.RewriteEveryOccurrence` | VALDToTurbo.py:88-98 | when the old count text occurs several times after column 27, every occurrence is rewritten before the tail is fitted to ten characters |
| `ValdToTurbo.RewriteKeepsHead` | VALDToTurbo.py:88-98 | `RewriteHeader` (through `RewriteText`) is the merge's header rewrite: `header[:27]`, then `header[27:]` with the old count text replaced by the new one, fitted to ten characters by `FitTen`. A rewritten header keeps the stored header's first 27 characters and has ten more after them |
| `ValdToTurbo.CountedHeaderDeclares` | VALDToTurbo.py:80 | a header with four tokens in its 27-character head and a right-justified count in its tail declares that count |
| `ValdToTurbo.RewriteCountedHeader` | VALDToTurbo.py:86-98 | rewriting such a header from count n to count m gives the header of count m, when m's text fits |
| `ValdToTurbo.RewriteOverflowingCount` | VALDToTurbo.py:89-93 | when the new count's text and the line ending exceed ten characters, the tail is their last ten characters |
| `ValdToTurbo.MergeAddsDeclaredCounts` | VALDToTurbo.py:86-87 | the merged header declares the stored count plus the incoming declared count, while the data grow by the lines actually collected |
| `ValdToTurbo.MergeKeepsCount` | VALDToTurbo.py:86-104 | merging a complete block into an entry whose header counts its data keeps the header counting its data |
| `ValdToTurbo.Merged` | VALDToTurbo.py:88-104 | a merged entry keeps its key at index 1 and holds the old data lines plus the new ones |
| `ValdToTurbo.MergedContents` | VALDToTurbo.py:99-104 | the merged data part is sorted and is a permutation of the old data lines plus the splice |
| `ValdToTurbo.MergeEntry` | VALDToTurbo.py:88-104 | rewriting the header, appending the splice and sorting the data part gives `Merged` |
| `ValdToTurbo.MergeTwiceData` | VALDToTurbo.py:100-104 | merging nothing more into a merged entry leaves its data unchanged (the sort is idempotent) |
| `ValdToTurbo.MergeNothing` | VALDToTurbo.py:88-104 | merging an empty block into a full-width header with sorted data changes nothing |
| `ValdToTurbo.Absorb` | VALDToTurbo.py:85-108 | absorbing a block keeps the accumulator well formed: distinct keys, each entry holding its key at index 1 |
| `ValdToTurbo.AbsorbEffect` | VALDToTurbo.py:85-108 | a new key gets `[header, key] + splice` unsorted; a repeated key is merged, failing exactly when its stored header has no readable count; no other key changes |
| `ValdToTurbo.AbsorbKeepsCount` | VALDToTurbo.py:85-104 | at accumulator level, a counted entry stays counted after absorbing a complete block |
| `ValdToTurbo.AbsorbFrom` | VALDToTurbo.py:77-108 | the walk ends, leaving the accumulator unchanged, once fewer than two lines remain, so a single trailing line is ignored |
| `ValdToTurbo.AbsorbFromKeepsKeys` | VALDToTurbo.py:77-108 | walking a file never drops a key |
| `ValdToTurbo.MinusTwoNeverAdvances` | VALDToTurbo.py:77-84 | `WalkAsWritten` is the position of the while loop as written, negative counts and Python's negative indexing included, for as long as the merges along the way do not raise (a raise at line 86, when the rewritten stored header has lost its count token, is not modelled). Once the walk reaches a header declaring -2 lines, it is at that header after any number of passes, and the loop guard still holds |
| `ValdToTurbo.Values` | VALDToTurbo.py:111 | the values list holds the entry of each key in insertion order; the i-th value has the i-th key as its second line, so the values are pairwise distinct |
| `ValdToTurbo.RenderIgnoresKeyOrder` | VALDToTurbo.py:111-117 | the output depends on the entries only, not on the order in which keys were first seen |
| `ValdToTurbo.RenderOrder` | VALDToTurbo.py:111-117 | `Render` is the values sorted as lists of strings and concatenated. The output is the concatenation of the entries in ascending list order, so headers appear in ascending text order |
| `ValdToTurbo.ListLeOrdersHeaders` | VALDToTurbo.py:114 | list comparison puts the entry with the smaller header first |
| `ValdToTurbo.Accumulator.constructor` | VALDToTurbo.py:72 | the dictionary starts empty |
| `ValdToTurbo.Accumulator.Add` | VALDToTurbo.py:85-108 | the dictionary's new state is `Absorb` of the old one; on failure it is unchanged |
| `ValdToTurbo.Accumulator.AddBlock` | VALDToTurbo.py:78-108 | a block that is read moves the walk to the block's `next` and the new state is `Absorb` of the old state with that block; a failure leaves the state unchanged; both agree with `AbsorbFrom` |
| `ValdToTurbo.Accumulator.AddFile` | VALDToTurbo.py:74-108 | the while loop over one file leaves the state `AbsorbFrom` gives, or its error |
| `ValdToTurbo.Accumulator.SortedLines` | VALDToTurbo.py:111-117 | the output lines are `Render` of the state |
| `ValdToTurbo.Concatenate` | VALDToTurbo.py:115-117 | the lines written are the sorted values one after another |
| `ValdToTurbo.AbsorbAll` | VALDToTurbo.py:73-108 | the dictionary after walking every file in listing order, or the first error; a successful walk leaves keys distinct and each entry holding its key at index 1 |
| `ValdToTurbo.TurboSort` | VALDToTurbo.py:64-121 | `MergeFiles` is `Render` of `AbsorbAll` from an empty dictionary, or its error. The lines written are `MergeFiles` of the folder's files, or the error raised before anything is written |
| `Sorting.SortBy` | VALDToTurbo.py:102 | sorting keeps the length and the multiset of elements |
| `Sorting.SortBySorted` | VALDToTurbo.py:102 | the sorted list is in order |
| `Sorting.SortByIgnoresOrder` | VALDToTurbo.py:114 | under a total order, the sort depends only on the multiset of elements |
| `Sorting.SortBySortedIsIdentity` | VALDToTurbo.py:102 | sorting a sorted list changes nothing |
| `Sorting.ListLeTotalOrder` | VALDToTurbo.py:114 | Python's comparison of lists of strings is a total order |
| `Text.RFind` | VALDLinelist.py:306 | `rfind(" ")` is the last index holding a space, or -1 |
| `Text.Contains` | VALDLinelist.py:301 | `sub in s` holds exactly when `sub` occurs at some index of `s` |
| `ValdFormat.IndicesOfSpec` | VALDLinelist.py:308-309 | the index lists hold every index of the character in increasing order, and nothing else |
| `ValdFormat.StripMassesWithoutParens` | VALDLinelist.py:311 | a symbol text without "(" is unchanged |
| `ValdFormat.StripMassesOfGroups` | VALDLinelist.py:308-313 | `StripMasses` is lines 308-313: the text unchanged without "(", `None` (IndexError) with too few ")", otherwise the joined pieces between each ")" and the next "(". For text of the form prefix + "(m1)t1" + ... + "(mk)tk", the stripped symbol is t1 + ... + tk; the prefix is dropped |
| `ValdFormat.StripMassesUnclosed` | VALDLinelist.py:312 | a "(" with no ")" raises |
| `ValdFormat.ElementLine` | VALDLinelist.py:306-314 | a rewritten element line starts with "'_" |
| `ValdFormat.ElementTextOf` | VALDLinelist.py:306 | the symbol text runs from the last space up to the final two characters |
| `ValdFormat.ElementLineOfSymbol` | VALDLinelist.py:306-314 | the element line is "'_", 29 spaces, the stripped symbol, 5 spaces and "'\n" |
| `ValdFormat.ElementLineOfGroups` | VALDLinelist.py:306-314 | an element line ending in a symbol with masses is rewritten to the symbols without their masses |
| `ValdFormat.KeepQuoted` | VALDLinelist.py:334-338 | every line kept starts with a quote |
| `ValdFormat.StopIndex` | VALDLinelist.py:300-302 | the index of the first line holding the trailer, no earlier line holding it |
| `ValdFormat.KeepQuotedBeforeStop` | VALDLinelist.py:334-338 | the filter emits exactly the quoted lines before the trailer, in input order |
| `ValdFormat.FormatStopsAtTrailer` | VALDLinelist.py:300-302 | nothing from the trailer line on reaches the output of `VALDFormat` |
| `ValdFormat.FormatRewritesQuoted` | VALDLinelist.py:297-319 | `FormatLines` is what `VALDFormat` appends for one file, and whether it raised. Without an exception, `VALDFormat` writes one line per quoted line before the trailer, in order: element lines rewritten, the others verbatim |
| `ValdFormat.FormatWithoutElementLines` | VALDLinelist.py:303-316 | with no ":" lines the two filters agree |
| `ValdFormat.FormatWritesQuoted` | VALDLinelist.py:303-319 | every line `VALDFormat` writes starts with a quote |
| `ValdFormat.VALDFormat` | VALDLinelist.py:297-319 | the loop writes `FormatLines` of the file and reports whether it raised |
| `ValdFormat.CopyQuoted` | VALDLinelist.py:334-340 | the inner loop writes `KeepQuoted` of the file |
| `ValdFormat.VALDCombineNoFormat` | VALDLinelist.py:330-340 | the files' kept lines are appended in listing order |
| `ValdFormat.CombinedNoFormatAppend` | VALDLinelist.py:330-340 | `CombinedNoFormat` is each file's `KeepQuoted` in listing order. Combining two lists of files one after the other gives the first's lines, then the second's |
| `ValdFormat.VALDCombineFormat` | VALDLinelist.py:352-356 | the output starts empty, then each file is filtered in turn until one raises |
| `ValdFormat.CombinedFormatWithoutElementLines` | VALDLinelist.py:352-356 | `CombinedFormat` is each file's `FormatLines` in listing order, stopping after the first that raises. When no line holds ":", it writes what `CombinedNoFormat` writes and raises nothing |
| `ValdSplit.Lower` | VALDLinelist.py:370 | `lower()` keeps the length, leaves no ASCII capital and no Kelvin sign, and changes no other character |
| `ValdSplit.ByteFactorIgnoresCase` | VALDLinelist.py:369-370 | `ByteFactor` is `byte_dict[unit.lower()]`: 1, 1000, 10^6 or 10^9 bytes for "b", "kb", "mb" or "gb", `None` (KeyError) for any other unit; `MaxBytes` is the value times that factor. The unit is read without regard to case |
| `ValdSplit.KelvinKilobytes` | VALDLinelist.py:369-370 | a unit spelt with the Kelvin sign and "B" is read as "kb", a thousand bytes |
| `ValdSplit.FindCut` | VALDLinelist.py:376-383 | a cut or a failing line lies within the piece |
| `ValdSplit.FindCutSpec` | VALDLinelist.py:376-383 | the cut is at the first line past the threshold whose second character is "_"; every earlier line passes |
| `ValdSplit.ScanPiece` | VALDLinelist.py:376-383 | the inner loop, keeping the running length, ends as `FindCut` says |
| `ValdSplit.PieceEndsAtFirstElementLine` | VALDLinelist.py:375-384 | every piece but the last is non-empty, ends with an element line within 500 of the limit, and no earlier line of it was one |
| `ValdSplit.SplitCovers` | VALDLinelist.py:373-385 | `SplitChunks` is the corrected loop: each piece runs up to its cut, and a piece without a cut is the last. The pieces hold the file's lines in order, all of them when nothing is raised |
| `ValdSplit.PieceCanExceedLimit` | VALDLinelist.py:377-381 | a piece can be longer than the limit |
| `ValdSplit.StaleStartRepeatsLines` | VALDLinelist.py:373-385 | `SplitAsWritten` is the loop as written, carrying `new_start` from piece to piece. As written, a piece without a cut is followed by the lines after the stale `new_start`, repeating content |
| `ValdSplit.SmallFileRaises` | VALDLinelist.py:384 | as written, a file whose first piece finds no cut raises NameError after writing it |
| `ValdSplit.CutFileName` | VALDLinelist.py:374 | the name of piece n is the stem, "_", the decimal text of n and ".cut" |
| `ValdSplit.CutFileNamesDiffer` | VALDLinelist.py:374 | different pieces go to different files |
| `ValdSplit.NamedFiles` | VALDLinelist.py:374 | the k-th piece goes to the file numbered k, counting from 1, and no two pieces share a file name |
| `ValdSplit.ChunksPrefixOfAsWritten` | VALDLinelist.py:373-385 | whatever the stale `new_start`, the pieces of the corrected split are the first pieces the code as written produces, and when the corrected split raises, both agree |
| `ValdSplit.SplitStep` | VALDLinelist.py:374-385 | one piece is written and the rest shrinks, agreeing with `SplitChunks` |
| `ValdSplit.VALDSplit` | VALDLinelist.py:371-385 | the files written are the numbered pieces of `SplitChunks` |
| `ValdSpectrum.SplitOn` | VALDLinelist.py:424 | `split(",")` gives at least one field and no field holds a comma |
| `ValdSpectrum.JoinOfSplit` | VALDLinelist.py:424 | joining the fields with commas gives back the line |
| `ValdSpectrum.SplitOfJoin` | VALDLinelist.py:424 | splitting a join of comma-free fields gives back the fields |
| `Text.Find` | VALDLinelist.py:426 | `index(" ")` is the first index holding a space; otherwise it fails |
| `ValdSpectrum.Get` | VALDLinelist.py:427-431 | `dict.get` returns a value stored under the key, or nothing when the key is absent |
| `ValdSpectrum.ElementCode` | VALDLinelist.py:426-431 | `SpeciesCode` is the species code of lines 426-431, or the error raised. An element in a known ion stage gets its atomic number followed by the stage's code |
| `ValdSpectrum.ElementUnknownStage` | VALDLinelist.py:431 | an element in a stage outside the table raises |
| `ValdSpectrum.MoleculeCode` | VALDLinelist.py:428-429 | a symbol that is not an element takes its molecule code, whatever stage follows |
| `ValdSpectrum.UnknownSymbol` | VALDLinelist.py:428-434 | a symbol in neither table raises |
| `Text.LeftJustify` | VALDLinelist.py:433 | `"{:<w}"` pads on the right to at least w characters and never cuts |
| `ValdSpectrum.ReadJustified` | VALDLinelist.py:433-450 | when every text fits its column, the record has the total width and reading it back column by column gives the texts |
| `ValdSpectrum.JustifiedNeverCuts` | VALDLinelist.py:433-450 | a text longer than its column is written whole |
| `ValdSpectrum.RecordWidth` | VALDLinelist.py:433-448 | the columns add up to 78 characters, 82 in isotope mode |
| `ValdSpectrum.RecordLayout` | VALDLinelist.py:425-451 | `Record` is the record of lines 425-451 for a line of at least 13 fields, or the error raised. A record whose columns fit is 79 (83) characters long and its columns read back as the stripped wavelength, the code, the mass number, the energies, log gf and the constants |
| `ValdSpectrum.RecordEndsLine` | VALDLinelist.py:451 | every record ends with "\n" |
| `ValdSpectrum.EndIndexFirst` | VALDLinelist.py:454-455 | `EndIndex` is the first line whose first field is exactly "*" and which has fewer than 13 fields |
| `ValdSpectrum.ConvertStopsAtEnd` | VALDLinelist.py:454-455 | nothing from that line on is converted |
| `ValdSpectrum.ConvertRecordsWideLines` | VALDLinelist.py:421-455 | `Step` is what one line leads to (a record, nothing, the end, or an exception) and `Convert` follows the lines until the end or an exception. Without an exception, one record is written per line of at least 13 fields before the end line, in order, and the k-th record is `Record` of the k-th such line |
| `ValdSpectrum.VALDToSpectrum` | VALDLinelist.py:421-455 | the loop writes `Convert` of the lines, and the exception raised after them, if any |

## Left out

- `VALDForm`, `VALDEmail` and `VALDDownload` are not part of this model. They drive a
  browser, poll a mail API, extract gzip archives and scan a download folder.
- `VALDToTurbo`, `VALDToTurboAuto` and `VALDToSortedTurbo` are not part of this model.
  They write a shell script, run an external executable and manage temporary folders.
- The file system is left out. This covers directory listing, opening, reading,
  appending, writing, removing an existing output file, path construction and printing
  when `silent` is false. Files are lists of lines, and folders are lists of files in
  listing order.
- The eV conversion `int(float(x)/1.23981e-4)` of `VALDToSpectrum` is left out, because
  it is floating-point arithmetic. Only the `eV=False` path is modelled.
- The float `byte_dict` multiplication of `VALDSplit` is left out. The limit is a whole
  number of bytes.
- `ValdSplit.CountedLength`: lengths are counted in characters, as `len(line)` does. The
  encoding of the output files is not modelled.
- `Text.ParseInt`: Python's `int()` also accepts underscores between digits and
  non-ASCII decimal digits. Such tokens are treated as not numbers.
- `ValdToTurbo.BlockAt`: a negative declared count is rejected with `NegativeCount`.
  This is the corrected behaviour of the finding below. As written, a count of -1 makes
  the key line the next header, a count of -2 never advances, and lower counts walk
  backwards.
- `ValdToTurbo.MinusTwoNeverAdvances`: `WalkAsWritten` follows the loop's position only.
  The merge of lines 85-104 can raise as well. For instance, line 86 raises IndexError once
  the ten-character fit has cut the count token out of the stored header. Such a raise ends
  the repeating loop and is not part of the walk.
- `ValdSpectrum.VALDToSpectrum`: the tables are a parameter. `ValdTables` holds the
  source's three tables, and `dict.get` on them is a search of the entry list.
- `ValdToTurbo.Render`: the `"\n".join(val)` of line 113 is not modelled, because its
  result is discarded.
- `ValdSplit.VALDSplit`: the method implements the corrected cut loop. The behaviour as
  written is `SplitAsWritten`; see the findings.
- `ValdSplit.SplitStep`: a piece without a cut ends the split, as the corrected loop does.
  As written, line 384 goes on from the stale `new_start` and writes more pieces. That
  behaviour is `SplitAsWritten`, and `ChunksPrefixOfAsWritten` shows that the corrected
  pieces are its first pieces.
- `ValdSplit.Lower`: only the ASCII capitals and the Kelvin sign are lowered. No other
  character has a lower case among "b", "g", "k" and "m", so `ByteFactor` reads every unit
  as Python does.

## Findings

| source | as written | input that shows it | evidently intended | confidence | as-written member | corrected member |
|---|---|---|---|---|---|---|
| VALDToTurbo.py:84 | `file_line = end + 1` with `end = file_line + 1 + count`, so a count of -2 leaves `file_line` unchanged and the while loop reads the same block again on every pass, as long as line 86 can parse the merged header (for instance while the count lies in the header's last ten characters) | a file whose header has "-2" as its fifth token, within its last ten characters | every block moves the walk forward | high; not executed | `ValdToTurbo.MinusTwoNeverAdvances` | `ValdToTurbo.BlockAt` |
| VALDLinelist.py:382-384 | `new_start` keeps the previous piece's value when a piece finds no cut, so the same lines are written again into later pieces | the lines `"'_\n"`, `"a\n"`, `"bb\n"`, `"c\n"` with a limit of 500 bytes give the pieces `["'_\n"]`, `["a\n", "bb\n", "c\n"]`, `["bb\n", "c\n"]`, `["c\n"]` | the remaining lines form the last piece, and every line is written once | high; not executed | `ValdSplit.StaleStartRepeatsLines` | `ValdSplit.SplitCovers` |
