# Cutter: a verified model

This project models the parts of the Cutter testing framework that compute something delicate, and
proves what they are for. Everything is stated for all inputs, all runs or all reachable states; the
loops and objects of the program are loops and classes here, proved against specification functions,
and the main results are lemmas about those functions.

* **Differ** (`Edits`, `MatchSpec`, `MatchLaws`, `Unshared`, `Similarity`, `MatchQueue`, `GroupSpec`,
  `SequenceMatcher`, `Lines`, `LineDiff`, `PairedLines`, `CharDiff`, `TagLaws`, `ColorRows`, `ColorText`, `DiffWriter`,
  `DiffText`, `DiffLaws`, `Patch`, `Differ`). The
  sequence matcher finds an edit script for two texts; the readable and the colouring differ print it, with a
  recursive search for the most similar lines of each replaced block, tag lines below changed lines and hunks in
  context mode. What either differ writes is parsed back to both texts, and the hunks are applied by a strict patch
  program written for the purpose. Since the script is proved valid, these results hold for every pair of texts.
* **Symbols** (`Decimal`, `SymbolNames`, `MangleGcc`, `RecogniseGcc`, `MangleVcc`, `TestNames`, `Loader`,
  `LoadedLaws`). Printing namespaced
  function names as symbols, recognising test functions among symbols, and grouping the recognised tests
  into test cases. The GCC form is the `<nested-name>` and `<source-name>` grammar of section 5.1.2 of the
  Itanium C++ ABI.
* **Unwinding** (`Unwind`). Nested assertion macros save and restore a jump buffer and a nesting count; a
  failure jumps out level by level; C++ exceptions skip the levels and are repaired. The machine is compared
  with the meaning of a test read off its structure, which knows no buffers and no counts.
* **Logger** (`Flags`, `Logger`, `FlagLaws`), **directory walk** (`Repository`, `RepositoryLaws`), **crash guards**
  (`CrashBacktrace`) and **ELF reader** (`Elf`, `ElfImage`, `ElfLaws`; chapter 4 of the System V gABI).

Loops and objects are proved against specification functions; what these functions mean is proved apart from their
bodies, for the larger parts in modules named `...Laws`.

`Seqs` and `Arithmetic` hold small facts about sequences and numbers, `Wrappers` the option type. A `hide` statement
only keeps definitions out of a proof that does not need them, and a lemma named `...Unfold` or `...Fact` gives one of
them back.

## How to read the model

* A string of bytes is a `string`. C strings end at their last character; lengths are unbounded unless a width
  matters, and then it is written out (64-bit saturation and negation of `g_ascii_strtoull`, the 32-bit symbol
  count of the ELF reader, the wrap-around of the nesting count).
* Flags are sets of bit numbers, since they are only OR-ed, masked and compared with 0. The order in which a
  hash table is visited is left open: the loop over it picks any remaining key.
* Files, symbol lookup, directory listings, signal tables, results of `sigaction` and filters are parameters
  or plain data.

## Where the code and its intention differ

The model follows the code, and a lemma says how far it goes.

* Colour rows line up exactly when each padded part starts in characters as many columns as characters wide
  (`ColorRows.RowsAligned`): the padding adds a column count to a character offset. The lines "a" and tab "b" do not
  line up (`ColorRows.MisalignedExample`).
* The search of a replaced block for identical lines never finds any in a whole diff, since the matcher leaves no
  common line in such a block (`PairedLines.PairedLinesDiffer`).
* A namespace printed for GCC is recognised again exactly when no component is empty or starts with a digit
  (`RecogniseGcc.RecoversIff`).
* A namespace printed for Visual C++ is recognised again exactly when no component is empty or holds `@`
  (`MangleVcc.RoundTrip`); the data setup name derived for such a symbol is never the symbol of the data
  function (`MangleVcc.DataSetupNeverMangled`).
* Attribute functions by name exist for C tests only; no C++ test ever gets one (`TestNames.AttributeFunctionIff`).
* The test for ignored directories looks at the whole path, so below a named directory it finds `.dSYM`
  directories only, never `.git`, `.svn` or `CVS` (`Repository.SubdirectoryIgnoredIff`).
* The log gate is sound exactly while the mask covers the target level (`Logger.GateOpenIff`); it is after all
  calls that use other names than `default` and leave the property alone (`Logger.GateSound`), and can fail
  after the others (`Logger.ImpoliteExamples`).
* Recognising a GCC symbol and printing it again gives the symbol back exactly if it is nested, its lengths are written
  plainly, and the names in it hold no "::" and, but for the last, end in no ":" (`RecogniseGcc.PrintRecognisedIff`); a
  symbol without `N` is recognised too but printed with it (`RecogniseGcc.UnnestedExample`).
* The data setup symbol derived from a recognised GCC symbol is the symbol of the data function exactly for the same
  symbols (`RecogniseGcc.DataSetupIff`); from `_Z6test_aEPv`, a test in the empty namespace, comes `_Z6data_aEv`
  (`RecogniseGcc.UnnestedDataExample`).

## Model

| member | source | states |
|---|---|---|
| MatchSpec.RunLengthCovers | cutter/cut-sequence-matcher.c:541-598 | a common run of elements without junk is counted at its last cell with at least its length |
| MatchSpec.BestMatchIsFirstLongest | cutter/cut-sequence-matcher.c:541-598 | the best match is a common run, no run in the window is longer, and among the longest it is the first the scan meets |
| MatchSpec.MatchesChain | cutter/cut-sequence-matcher.c:734-784 | the matches of a window are common runs that ascend in both sequences without overlapping |
| MatchSpec.OperationsValid | cutter/cut-sequence-matcher.c:862-898 | for all sequences the operations cover both without gaps, EQUAL ranges hold equal elements, REPLACE ranges are non-empty on both sides, INSERT and DELETE on one |
| MatchLaws.LongestMatchIff | cutter/cut-sequence-matcher.c:623-680 | the longest match of a window is exactly its first longest run with the equal junk around it: all of it on the left, and on the right as much as leaves one more element of the window on both sides |
| MatchLaws.MatchesIff | cutter/cut-sequence-matcher.c:734-784 | the matches are exactly the longest ones, not empty, of the windows the search comes to |
| MatchLaws.FoundIsShown | cutter/cut-sequence-matcher.c:734-898 | the longest match of every window the search comes to lies in one EQUAL range, element by element |
| MatchLaws.OperationsAlternate | cutter/cut-sequence-matcher.c:792-898 | of two neighbouring operations exactly one is EQUAL: no range is ever cut in two |
| DiffLaws.LineMatchIff | cutter/cut-differ.c:331-338 | between two lines the junk a match grows over is spaces and tabs |
| Unshared.ReplacedShareOnlyJunk | cutter/cut-sequence-matcher.c:734-898 | for all sequences, whatever the two sides of a REPLACE have in common is junk |
| Unshared.OperationsApart | cutter/cut-sequence-matcher.c:862-898 | a REPLACE is followed by a non-empty EQUAL, if by anything |
| Unshared.GroupReplaces | cutter/cut-sequence-matcher.c:900-1019 | both hold in every group of a context diff |
| Unshared.JunkNeverKeptWhole | cutter/cut-sequence-matcher.c:623-680 | where the first sequence is all junk no EQUAL comes to its end: the growth to the right stops one short |
| Similarity.RatioBounds | cutter/cut-sequence-matcher.c:1021-1049 | the ratio lies between 0 and 1 |
| Similarity.RatioCounts | cutter/cut-sequence-matcher.c:1021-1049 | the ratio times the total length is the number of elements, on both sides, of the EQUAL operations; without elements it is 1 |
| Similarity.RatioOneIff | cutter/cut-sequence-matcher.c:1021-1049 | without junk it is 1 exactly if both sequences are equal |
| MatchQueue.QueueStep | cutter/cut-sequence-matcher.c:734-784 | taking a window from the queue and pushing its two rests keeps the set of matches still to be found |
| MatchQueue.SortedUnique | cutter/cut-sequence-matcher.c:717-732 | lists with the same matches, one sorted and one strictly ascending by position, are the same list |
| MatchQueue.SortedMatches | cutter/cut-sequence-matcher.c:734-784 | sorting the matches in whatever order the queue finds them gives those of the recursive search, in order |
| GroupSpec.GroupsCover | cutter/cut-sequence-matcher.c:900-1019 | the groups are non-empty runs of operations, in order, and the elements between groups, before the first and after the last are equal |
| GroupSpec.GroupsKeepChanges | cutter/cut-sequence-matcher.c:965-1019 | grouping loses and adds no change and keeps their order |
| GroupSpec.ContextShown | cutter/cut-sequence-matcher.c:900-1019 | a group shows at most `context` common elements at each end and at most twice as many between two changes; wherever common elements are left out, before, between or behind the groups, exactly `context` are shown next to them, and between two groups at least one is left out |
| GroupSpec.SameContentIff | cutter/cut-differ.c:363-379 | the same-content test holds exactly when both sequences are equal |
| SequenceMatcher.MergeBlocks | cutter/cut-sequence-matcher.c:792-832 | the loop merges adjacent matches into the specified blocks |
| SequenceMatcher.ListOperations | cutter/cut-sequence-matcher.c:862-898 | the loop over blocks gives the specified operations |
| SequenceMatcher.ExpandEdges | cutter/cut-sequence-matcher.c:900-963 | the copied operations have the first and last EQUAL range cut to the context |
| SequenceMatcher.GroupOperations | cutter/cut-sequence-matcher.c:965-1019 | the loop splits the operations into the specified groups |
| SequenceMatcher.SequenceMatcher.constructor | cutter/cut-sequence-matcher.c:390-416 | the tables are built for the two sequences, all cached lists are empty and no ratio is cached |
| SequenceMatcher.SequenceMatcher.UpdateToIndices | cutter/cut-sequence-matcher.c:356-388 | the index table maps each element to its ascending positions, and junk is taken out |
| SequenceMatcher.SequenceMatcher.FindBestMatchPosition | cutter/cut-sequence-matcher.c:541-598 | the row-by-row scan over the index table finds the specified best match |
| SequenceMatcher.SequenceMatcher.AdjustBestInfoWithJunkPredicate | cutter/cut-sequence-matcher.c:623-655 | a match is extended to the left and right as specified |
| SequenceMatcher.SequenceMatcher.GetLongestMatch | cutter/cut-sequence-matcher.c:657-680 | the longest match is the specified one, extended only if there is junk |
| SequenceMatcher.SequenceMatcher.GetMatches | cutter/cut-sequence-matcher.c:734-784 | the queue of windows terminates and gives the matches of the recursive specification, cached |
| SequenceMatcher.SequenceMatcher.GetBlocks | cutter/cut-sequence-matcher.c:792-832 | the blocks, cached |
| SequenceMatcher.SequenceMatcher.GetOperations | cutter/cut-sequence-matcher.c:862-898 | the operations, cached |
| SequenceMatcher.SequenceMatcher.GetGroupedOperations | cutter/cut-sequence-matcher.c:965-1019 | the groups for the context size in effect, cached |
| SequenceMatcher.SequenceMatcher.GetRatio | cutter/cut-sequence-matcher.c:1021-1049 | the ratio is returned and kept in its field |
| SequenceMatcher.SequenceMatcher.SetContextSize | cutter/cut-sequence-matcher.c:1057-1071 | a new context size drops the cached groups and keeps everything else |
| Lines.SplitNewlineFree | cutter/cut-differ.c:128-132 | splitting a text at line ends leaves lines without newlines |
| Lines.SplitIff | cutter/cut-differ.c:128-132 | the lines of a text that is not empty are exactly those, newline-free, of which it is the joining with "\n" or "\r\n" between each two and no "\r" in front of a bare "\n"; the empty text has none |
| Lines.ReadUnlines | cutter/cut-diff-writer.c:95-101 | lines written with a newline each are read back |
| Lines.ReadFinished | cutter/cut-string-diff-writer.c:125-132 | and still are after the last newline has been dropped, if the last line is not empty |
| Decimal.NumeralValue | cutter/cut-loader.c:1149-1169 | the numeral of a number stands for it and has no leading zero |
| Decimal.CanonicalNumeral | cutter/cut-loader.c:361-402 | a string of digits without leading zero is the numeral of its value |
| LineDiff.ReadableSelection | cutter/cut-readable-differ.c:230-301 | where a block has a pair of different lines of ratio at least 0.75 the search takes the first one of the largest ratio; else the first identical pair if there is one; else none |
| LineDiff.ColorizeSelection | cutter/cut-colorize-differ.c:71-81 | with both ratios 0 the colouring differ always takes a pair, the first most similar one if any ratio is positive |
| LineDiff.CutOffOrder | cutter/cut-readable-differ.c:280-288 | a block without a pair begins with its new lines exactly if there are fewer of them |
| LineDiff.DiffScriptAccounts | cutter/cut-readable-differ.c:230-301 | the recursion over a block uses each of its lines once, in order, on both sides |
| LineDiff.ScriptAccounts | cutter/cut-readable-differ.c:304-333 | so does the whole script |
| LineDiff.ScriptKeptAgree | cutter/cut-readable-differ.c:304-333 | lines shown as unchanged are equal on both sides |
| LineDiff.PairChosenIff | cutter/cut-readable-differ.c:230-301 | the pairs of a block are exactly those selected in the blocks the recursion comes to, under either class's ratios |
| LineDiff.ReadablePairsJustified | cutter/cut-readable-differ.c:230-301 | each pair passed to diff_line is the one selected in a block the recursion comes to; in that block it is of the largest ratio among the different pairs, at least 0.75, or identical and no different pair reaches 0.75 |
| LineDiff.ScriptPairsJustified | cutter/cut-readable-differ.c:304-333 | so is each pair of the whole diff, for the block of one of its REPLACE operations |
| LineDiff.ReadableMissesNoPair | cutter/cut-readable-differ.c:230-301 | a removed and an added line with no pair between them are neither identical nor of ratio 0.75 |
| PairedLines.PairedLinesDiffer | cutter/cut-readable-differ.c:241-286 | in a whole diff of either differ two lines shown as one changed line are never identical |
| PairedLines.PairedLinesSimilar | cutter/cut-readable-differ.c:230-301 | in a whole readable diff every pair is a most similar one of its block, of ratio at least 0.75 |
| PairedLines.GroupPairsDiffer | cutter/cut-readable-differ.c:241-286 | nor are they identical in a group of a context diff |
| PairedLines.ScriptNeighbours | cutter/cut-readable-differ.c:230-333 | of two pairs shown one after the other, the new line of the first is not the old line of the second |
| LineDiff.PairsNeverCross | cutter/cut-readable-differ.c:230-301 | the pairs passed on, and the lines kept, ascend strictly in both indices |
| CharDiff.ComputeWidth | cutter/cut-differ.c:341-361 | the running width is the sum of the widths of the characters |
| TagLaws.WidthMeans | cutter/cut-differ.c:341-361 | a tab takes eight columns, a wide character two, any other character one |
| CharDiff.AppendSpaces | cutter/cut-readable-differ.c:125-142 | the blanks appended for a range are as wide as the range and keep its tabs |
| TagLaws.SpacesMean | cutter/cut-readable-differ.c:125-142 | piece by piece the blanks for a text are as wide as it, with as many tabs, and otherwise spaces |
| CharDiff.BuildTags | cutter/cut-readable-differ.c:153-206 | the loop of diff_line builds the specified tag strings for both lines |
| CharDiff.TagAlignment | cutter/cut-readable-differ.c:153-206 | before trimming, the tags of the first k operations are exactly as wide as the part of the line before operation k, with tabs and wide characters; with all operations, as wide as the line |
| CharDiff.TrimmedTags | cutter/cut-readable-differ.c:98-122 | trimming leaves a prefix of the tags, which is empty exactly if no operation touches that line |
| TagLaws.TagsMark | cutter/cut-readable-differ.c:153-206 | in the columns of each operation's part of a line stand its own marks: ^ for REPLACE, - for DELETE, + for INSERT, blanks for EQUAL |
| TagLaws.TrimmedExplains | cutter/cut-readable-differ.c:98-122 | so they do after trimming but for blanks at the end, of which none is left; nothing is shown exactly if no operation changes the line |
| DiffLaws.PairInDiff | cutter/cut-readable-differ.c:98-211 | in every readable diff of two texts each changed pair stands with these marks right below either line |
| DiffLaws.TaggedRoundTrip | cutter/cut-readable-differ.c:304-333 | by the tags of its lines alone a readable diff gives back both lists of lines |
| ColorRows.RowsRoundTrip | cutter/cut-colorize-differ.c:150-292 | for every script the first row gives back the old line, and both rows together the new one |
| ColorRows.RowsAligned | cutter/cut-colorize-differ.c:230-250 | every operation starts in the same column of both rows if and only if each padding starts in characters of width 1 |
| ColorRows.NarrowPadFits | cutter/cut-colorize-differ.c:230-250 | that holds where the wider side of each REPLACE has characters of width 1 only |
| ColorRows.NothingShared | cutter/cut-sequence-matcher.c:862-898 | two non-empty lines without a common character are one REPLACE |
| ColorRows.MisalignedExample | cutter/cut-colorize-differ.c:230-250 | for "a" and tab "b" the matcher gives one REPLACE whose padding does not fit, so some operation does not line up |
| ColorText.SecondContinues | cutter/cut-colorize-differ.c:150-292 | the second row of a pair can be told from its tags and blanks |
| ColorText.FirstNeverContinues | cutter/cut-colorize-differ.c:150-292 | the first row of a pair is never taken for the second row of the pair before it, unless its old line is that pair's new line |
| ColorText.ColorizeRoundTrip | cutter/cut-colorize-differ.c:150-292 | for all lists of lines, what the colouring differ writes for the whole diff is read back to both, line for line, though no row says whether it is a first or a second one |
| ColorText.ColorizePatches | cutter/cut-readable-differ.c:336-371 | for all lists of lines and every context size above 0, the coloured hunks, read as a plain diff, turn the first list into the second |
| DiffWriter.DiffWriter.WriteSegment | cutter/cut-diff-writer.c:66-82 | one segment is written with its tag |
| DiffWriter.DiffWriter.MarkLine | cutter/cut-diff-writer.c:117-126 | mark, separator, line and newline, in this order |
| DiffWriter.DiffWriter.MarkLines | cutter/cut-diff-writer.c:128-142 | the same for every line of a range |
| DiffWriter.DiffWriter.WriteSpaces | cutter/cut-diff-writer.c:163-186 | the blanks for a range, nothing for an empty or reversed one |
| DiffText.ReadPrint | cutter/cut-readable-differ.c:213-333 | reading the marks of the printed steps gives the lines of the chosen side, in order, through every recursion and both orders of the cut-off branch |
| DiffText.ReadableRoundTrip | cutter/cut-readable-differ.c:304-371 | the printed diff of two lists of newline-free lines is parsed back to both lists |
| DiffText.DiffReadableRoundTrip | cutter/cut-readable-differ.c:373-388 | for every two texts, cut_diff_readable is parsed back to the lines of both |
| Patch.HeaderRoundTrip | cutter/cut-differ.c:173-200 | the printed hunk header is parsed back to its positions and counts, an omitted count where the count is at most 1 |
| Patch.HeaderExamples | cutter/cut-differ.c:173-200 | two headers, spelled out |
| Patch.HeaderCounts | cutter/cut-differ.c:173-200 | a header gives the first line of its group on each side, and its counts are the numbers of lines its body has for that side; a count is omitted exactly when it is at most 1 |
| Patch.ContextDiffPatches | cutter/cut-readable-differ.c:336-371 | applying the printed hunks to the old lines, with every position, count and context line checked, gives the new lines |
| Patch.DiffWithContextPatches | cutter/cut-readable-differ.c:336-371 | the same for every two texts and every context size above 0, the sizes at which hunks are printed |
| Patch.NothingShownIff | cutter/cut-readable-differ.c:348-361 | in context mode nothing is printed exactly when both texts have the same lines |
| Differ.Differ.constructor | cutter/cut-differ.c:134-153 | both texts are split into lines and no matcher exists yet |
| Differ.Differ.GetSequenceMatcher | cutter/cut-differ.c:226-249 | the matcher is created once, for the lines of both texts |
| Differ.Differ.SetContextSize | cutter/cut-differ.c:251-258 | the context size is set, on a new matcher if there was none |
| Differ.Differ.FormatDiffPoint | cutter/cut-readable-differ.c:98-122 | writes the pair, each line followed by its trimmed tags if there are any |
| Differ.Differ.ReadableDiffLine | cutter/cut-readable-differ.c:153-211 | writes the specified lines for a changed pair |
| Differ.Differ.ColorizeDiffLine | cutter/cut-colorize-differ.c:150-292 | writes the specified rows, the second from the deferred operations |
| Differ.Differ.WriteOperationFirst | cutter/cut-colorize-differ.c:179-255 | writes one operation's part of the first row and defers its part of the second |
| Differ.Differ.WriteDeferred | cutter/cut-colorize-differ.c:264-292 | replays the deferred operations in order |
| Differ.Differ.SearchPairs | cutter/cut-readable-differ.c:230-272 | the nested loops find the specified best ratio, best pair and equal pair |
| Differ.Differ.DiffLines | cutter/cut-readable-differ.c:230-301 | the recursion terminates and writes the specified steps of the block |
| Differ.Differ.MarkDiffLines | cutter/cut-readable-differ.c:213-228 | writes a block of which one side may be empty |
| Differ.Differ.DiffOperations | cutter/cut-readable-differ.c:304-333 | writes the specified steps of all operations |
| Differ.Differ.WriteSummary | cutter/cut-differ.c:173-200 | writes the header of the range from the first to the last operation |
| Differ.Differ.Diff | cutter/cut-readable-differ.c:336-371 | writes the whole diff, all of it or by groups |
| Differ.Differ.NeedDiff | cutter/cut-differ.c:269-330 | true exactly if there are both EQUAL and INSERT or DELETE operations, or a REPLACE with a pair of lines above the best ratio |
| DiffLaws.WorthIff | cutter/cut-differ.c:269-330 | that ratio is 0.74 for the readable differ and 0 for the colouring one |
| Differ.DiffEventsText | cutter/cut-string-diff-writer.c:100-132 | the text of what is written is the text that the round trip and the patch results speak about |
| Differ.CutDiffReadable | cutter/cut-readable-differ.c:373-388 | the whole run gives the text of those results |
| SymbolNames.PrefixesQualify | cutter/cut-loader.c:492-499 | the components of a namespace, each followed by "::", and a name make the qualified name |
| SymbolNames.ComponentsPrefixesIff | cutter/cut-loader.c:1158-1163 | joining components with "::" and splitting again gives them back exactly if none holds "::" and none but the last ends in ":" |
| SymbolNames.StrToULLNumeral | cutter/cut-loader.c:382-384 | a printed length that is not followed by a digit is read back |
| SymbolNames.StrToULLMeans | cutter/cut-loader.c:382-384 | blanks and one sign are passed over, more than the largest 64-bit number is cut to it, and a minus negates modulo 2^64; without digits nothing is read |
| MangleGcc.Mangle | cutter/cut-loader.c:1149-1169 | the buffer holds the specified symbol |
| MangleGcc.SkipCppNamespace | cutter/cut-loader.c:361-402 | the loop stops where and with what the specification says |
| MangleGcc.RoundTrip | cutter/cut-loader.c:361-504 | the symbol printed for a namespace of non-empty components that do not start with a digit and a test name is recognised as that test in that namespace |
| RecogniseGcc.RecoversIff | cutter/cut-loader.c:361-504 | for every namespace and test name, recognition gives both back if and only if no component is empty or starts with a digit |
| MangleGcc.Injective | cutter/cut-loader.c:1149-1169 | on that domain different functions have different symbols |
| MangleGcc.DataSetupIsMangled | cutter/cut-loader.c:445-464 | for a printed symbol of a test that takes data the derived setup symbol is the symbol of the data function: the copied length is right |
| RecogniseGcc.PassedPrinted | cutter/cut-loader.c:361-402 | what the scanner passed, printed again, is the text it passed |
| RecogniseGcc.OwnPassed | cutter/cut-loader.c:361-402 | if the names scanned in a print and the components printed give the same qualified name, they are the same, and none is empty or starts with a digit |
| RecogniseGcc.PrintRecognised | cutter/cut-loader.c:425-504 | printing what was recognised in a nested symbol with plain lengths and separable names gives the symbol back |
| RecogniseGcc.PrintRecognisedIff | cutter/cut-loader.c:425-504 | of all recognised symbols without data, exactly those are given back when what was recognised is printed |
| RecogniseGcc.DataSetupIff | cutter/cut-loader.c:445-464 | of all recognised symbols with data, exactly for those the derived setup symbol is the one printed for the data function in the recognised namespace |
| RecogniseGcc.UnnestedExample | cutter/cut-loader.c:374-375 | a symbol without nesting is recognised but printed differently |
| RecogniseGcc.UnnestedDataExample | cutter/cut-loader.c:445-464 | a symbol without nesting that takes data is recognised, and its derived setup symbol is not the one printed |
| MangleVcc.Mangle | cutter/cut-loader.c:1171-1192 | the buffer built from the back holds the specified symbol |
| MangleVcc.DetectSymbol | cutter/cut-loader.c:522-639 | the scanning loops recognise what the specification recognises |
| MangleVcc.ScanComponents | cutter/cut-loader.c:548-571 | components printed in reverse order are read back in their own order |
| MangleVcc.RoundTrip | cutter/cut-loader.c:522-639 | a printed symbol is recognised as its test if and only if no component is empty or holds an @ |
| MangleVcc.DetectedAtFree | cutter/cut-loader.c:548-571 | no recognised namespace holds an @, whatever the symbol |
| MangleVcc.Injective | cutter/cut-loader.c:1171-1192 | on that domain different functions have different symbols |
| MangleVcc.DataSetupNeverMangled | cutter/cut-loader.c:574-593 | tests that take data are recognised, but the derived setup name is never the symbol of the data function |
| TestNames.DetectMangled | cutter/cut-loader.c:647-688 | C names and both forms of symbol are told apart, so each printed test is recognised as itself |
| TestNames.DetectShapes | cutter/cut-loader.c:425-688 | whatever is recognised has one of the three forms, by its first and last characters; only C names have no namespace |
| TestNames.SymbolExamples | cutter/cut-loader.c:1149-1214 | the symbols of a test in a namespace, spelled out in both forms |
| TestNames.AttributeFunctionIff | cutter/cut-loader.c:933-1021 | a function sets an attribute exactly if it is the attribute, "_" and the bare name, not empty, of a C test, and not a test, data or attributes function |
| Loader.SharedObjectLoader.CollectTestFunctions | cutter/cut-loader.c:917-931 | the recognised names, in reverse order of the symbols |
| Loader.SharedObjectLoader.ApplyAttributes | cutter/cut-loader.c:1025-1051 | the loop collects the attributes the specification gives for the test |
| Loader.LastGives | cutter/cut-loader.c:1025-1051 | an attribute is given by the last function, in the order of the symbols, that gives it |
| Loader.NoneGives | cutter/cut-loader.c:1025-1051 | and is missing if no function gives it |
| Loader.SharedObjectLoader.RegisterValidTest | cutter/cut-loader.c:1085-1147 | the test is added if its function, and its data function where required, can be looked up; else the case is unchanged |
| Loader.SharedObjectLoader.CreateTestCase | cutter/cut-loader.c:1216-1278 | a case for the namespace with its hooks, prefixed ones first |
| Loader.SharedObjectLoader.FindCppTestCase | cutter/cut-loader.c:1280-1294 | the first case whose name is the namespace |
| Loader.SharedObjectLoader.LoadTestCases | cutter/cut-loader.c:1355-1386 | the case objects are distinct and hold the specified cases |
| Loader.LoadedConserves | cutter/cut-loader.c:1296-1386 | the registered tests are those of the recognised, resolvable symbols, each exactly once |
| LoadedLaws.LoadedTestsIff | cutter/cut-loader.c:1085-1147 | a test is in a case exactly if it is that of a recognised symbol which is exported, with an exported data function where it takes data |
| LoadedLaws.LoadedInOrder | cutter/cut-loader.c:1296-1386 | tests come in reverse order of the symbols within their case, cases in reverse order of the names they were created for |
| LoadedLaws.LoadedHooks | cutter/cut-loader.c:1216-1278 | setup and teardown of the C case are "cut_setup" or else "setup", "cut_teardown" or else "teardown", if exported, startup and shutdown the prefixed ones only; in a namespace each hook is the symbol of its own function, the prefixed one first |
| Loader.LoadedWell | cutter/cut-loader.c:1355-1386 | namespaced tests are in a case of that name, C tests in one case, cases of different namespaces have different names, and no case exists without a symbol for it |
| Unwind.RunMeans | cutter/cut-assertions-helper.h:30-82 | from every coherent context the machine of buffers and counts does what the structure of the code says |
| Unwind.ExitRestores | cutter/cut-assertions-helper.h:30-57 | every exit, normal or by jump, leaves jump buffer and nesting count as on entry, and a jump goes to the buffer in force on entry |
| Unwind.OnlyNotifications | cutter/cut-assertions-helper.h:59-68 | while a test runs, nothing but notifications is processed |
| Unwind.TestEnds | cutter/cut-test.c:469-488 | a C test ends in its own frame; the result that stops it is processed once, last; it has failed exactly if it had before or was stopped with Pending, Failure, Error or Crash, and is omitted exactly if stopped so, or before if neither stopped nor notified |
| Unwind.StopUnwinds | cutter/cut-assertions-helper.h:30-57 | a stop inside any nesting runs the message steps innermost first and nothing that follows |
| Unwind.FailureUnwinds | cutter/cut-assertions-helper.h:30-82 | a failure at any depth is processed once, at nesting count 0, with the messages in order and the last one told; the test has failed exactly if it had before or the status is Pending, Failure, Error or Crash, and is omitted exactly by an omission |
| Unwind.NotifiedIff | cutter/cut-assertions-helper.h:59-68 | code notifies exactly if a notification is processed while it runs |
| Unwind.GoesOnAfter | cutter/cut-assertions-helper.h:30-82 | what follows a notification still runs; a return skips the rest of the innermost macro, or of the test, and is no failure |
| Unwind.ForceUnwindEnds | cppcutter/cppcut-test-methods.cpp:49-56 | forced unwinding ends with count 0 and the base buffer |
| Unwind.InvokeAgrees | cppcutter/cppcut-test-methods.cpp:58-115 | a C++ test that lets no exception out ends exactly like the C test |
| Unwind.ExceptionBecomesError | cppcutter/cppcut-test-methods.cpp:78-117 | an exception from any depth ends with count 0, the base buffer and exactly one more ERROR result, whose text names the exception |
| Unwind.TestContext.SetCurrentResult | cutter/cut-test-context.c:924-955 | the current result is replaced; critical results mark the test failed |
| Unwind.TestContext.SetCurrentResultUserMessage | cutter/cut-test-context.c:957-968 | the message reaches the current result if there is one |
| Unwind.TestContext.ProcessCurrentResult | cutter/cut-test-context.c:976-1029 | the current result is handed out once and cleared |
| Unwind.TestContext.FinishUserMessageJump | cutter/cut-test-context.c:1046-1050 | the unsigned count goes down by one |
| Unwind.RunningTest.LongJump | cppcutter/cppcut-test-methods.cpp:58-76 | a jump leaves the way the machine says: thrown to the test's own buffer while the test is invoked, plain otherwise |
| Unwind.ThrownOnlyToOwn | cppcutter/cppcut-test-methods.cpp:58-76 | over whole runs a jump is thrown only at nesting count 0, to the test's own buffer, so no macro that waits is skipped |
| Unwind.RunningTest.Terminate | cutter/cut-assertions-helper.h:70-82 | sets the result, processes it outside nesting, and leaves |
| Unwind.RunningTest.WithUserMessage | cutter/cut-assertions-helper.h:30-57 | the macro does what the machine does |
| Unwind.RunningTest.Execute | cutter/cut-assertions-helper.h:30-82 | running code on the context object is the machine |
| Unwind.RunningTest.RunPlain | cutter/cut-test.c:473-484 | the run of a C test around its setjmp |
| Unwind.RunningTest.ForceUnwindJumpBuffers | cppcutter/cppcut-test-methods.cpp:49-56 | the loop counts down to 0 and puts the base buffer back |
| Unwind.RunningTest.RunInvoked | cppcutter/cppcut-test-methods.cpp:78-117 | the run of a C++ test, with the invoking flag cleared again |
| Flags.ParseFlags | cutter/cut-logger.c:245-339 | the loop over the tokens gives the specified flags and error text |
| Flags.LastWriterWins | cutter/cut-logger.c:245-339 | each bit is set by the last token that names it, with its sign, or else kept from the base if there is a leading sign |
| Flags.ErrorIff | cutter/cut-logger.c:245-339 | an error is reported exactly if there is no string or some name is unknown |
| Flags.PiecesJoined | cutter/cut-logger.c:280 | the tokens are the names between the bars |
| FlagLaws.TextMeans | cutter/cut-logger.c:245-339 | a text written from signed and unsigned names is read as those names, each with its own sign or else that of the text |
| FlagLaws.ErrorText | cutter/cut-logger.c:245-339 | the error tells the unknown names in order, in angle brackets and with bars between them |
| FlagLaws.ByNickMeans | cutter/cut-logger.c:245-339 | a name stands for the first value of that nick |
| FlagLaws.MaskMeans | cutter/cut-logger.c:245-339 | the mask has exactly the bits of the values |
| Logger.Logger.SetInterestingLevel | cutter/cut-logger.c:736-760 | the cached mask is the OR of the table in whatever order it is visited |
| Logger.Logger.SetTargetLevel | cutter/cut-logger.c:699-709 | the target level and its entry are set |
| Logger.Logger.SetTargetProperty | cutter/cut-logger.c:186-206 | the property sets the target level and leaves table and mask alone |
| Logger.Logger.Log | cutter/cut-logger.h:27-38 | a message is printed exactly if it passes the gate and the handler's own test; while the gate is sound, exactly if it passes the handler's |
| Logger.Logger.LevelFromString | cutter/cut-logger.c:341-359 | the level and error that the specification gives for the text |
| Logger.LevelMeans | cutter/cut-logger.c:341-359 | "all" is every level but NONE; for any other text the last name of a bit decides, else a signed text keeps the bit of the resolved level, and an unsigned one clears it |
| FlagLaws.LevelNames | cutter/cut-logger.c:341-359 | the names of the levels and the bits each stands for |
| Logger.Logger.SetTargetLevelByString | cutter/cut-logger.c:711-734 | on an error everything stays as it was |
| Logger.OrOfRemove | cutter/cut-logger.c:736-760 | the OR does not depend on which entry comes first |
| Logger.CacheIsOr | cutter/cut-logger.c:744-760 | after any calls the mask has a bit exactly if some entry has it |
| Logger.GateOpenIff | cutter/cut-logger.c:532-549 | what would be printed passes the gate exactly if the target level lies in the mask |
| Logger.GateSound | cutter/cut-logger.c:699-760 | after any calls with other names than "default" and without setting the property, it does |
| Logger.ImpoliteExamples | cutter/cut-logger.c:195-198 | after setting the property, or the entry "default", it may not |
| Logger.UnknownKeeps | cutter/cut-logger.c:711-734 | an unknown name changes nothing |
| Logger.StepMeans | cutter/cut-logger.c:699-760 | setting the target sets the entry "default" to the level in effect, any other call one entry or the target alone, and every other entry stays |
| Repository.SubdirectoryIgnoredIff | cutter/cut-repository.c:254-261 | below a named directory exactly the entries that end in ".dSYM" are ignored |
| Repository.SuiteByEntry | cutter/cut-repository.c:224-236 | a suite module is told by the name of its entry |
| RepositoryLaws.StripMeans | cutter/cut-repository.c:286-344 | the slashes at the end of a directory, and only they, are left out of the paths below it |
| Repository.ComputeRelativePath | cutter/cut-repository.c:263-284 | the ancestors without a last ".libs" or "_libs"; the array is left as it was |
| RepositoryLaws.BaseDirectoryMeans | cutter/cut-repository.c:263-284 | the base directory is made of the names of the directories above, without a last ".libs" or "_libs" |
| Repository.Repository.UpdateTestSuiteLoader | cutter/cut-repository.c:238-252 | a suite is kept if it is the first or nearer to the top than the kept one |
| Repository.Repository.CollectLoader | cutter/cut-repository.c:286-344 | the walk terminates, restores the path array and collects the specified modules |
| Repository.Repository.CollectLoaders | cutter/cut-repository.c:356-363 | a repository with loaders does not walk again |
| Repository.LoadersReversed | cutter/cut-repository.c:334-338 | every module that is no suite is collected once, in reverse order of the visit |
| Repository.SuiteFirstShallowest | cutter/cut-repository.c:238-252 | the suite kept is the first visited among those nearest to the top; none only if there is none |
| Repository.ModulesIff | cutter/cut-repository.c:286-344 | the modules are exactly the files with the suffix, not excluded, reachable through readable directories that are neither excluded nor ignored, with the path of that way |
| RepositoryLaws.EntriesMean | cutter/cut-repository.c:286-344 | below a named directory a module ends in ".so" and is not excluded, and a directory is entered exactly if it can be read, is not excluded and does not end in ".dSYM" |
| RepositoryLaws.ModulePathMeans | cutter/cut-repository.c:286-344 | a module's path is the top directory and the names on the way to it, with one slash between each two |
| RepositoryLaws.VisitedInOrder | cutter/cut-repository.c:286-344 | what an entry holds is visited before what a later entry of the same directory holds |
| Repository.ModulesOnce | cutter/cut-repository.c:286-344 | in a tree without name clashes each is visited once |
| CrashBacktrace.EveryStateRestorable | cutter/cut-crash-backtrace.c:170-257 | after any calls, signals and failed installs, freeing the remaining guards restores the initial table; a caught signal always finds a guard; without guards the table is the initial one |
| CrashBacktrace.NestRestores | cutter/cut-crash-backtrace.c:170-257 | a guarded run leaves table and stack as it found them, also when it crashes at any depth, and a crash jumps to the innermost guard |
| CrashBacktrace.CaughtHasGuard | cutter/cut-crash-backtrace.c:181-183 | the handler never finds the stack empty |
| CrashBacktrace.NewCatches | cutter/cut-crash-backtrace.c:191-238 | a new guard catches SIGINT, SIGABRT, SIGBUS, SIGSEGV and SIGTERM as far as their actions can be replaced, leaves all other signals alone, and is the one a crash jumps to |
| CrashBacktrace.SecondCrashExits | cutter/cut-crash-backtrace.c:170-189 | a crash that is caught before the one before it is dealt with ends the process, and no other does |
| CrashBacktrace.CrashHandling.InstallAll | cutter/cut-crash-backtrace.c:217-232 | the actions that could be replaced are remembered, the others left alone |
| CrashBacktrace.CrashHandling.NewGuard | cutter/cut-crash-backtrace.c:191-238 | a guard is pushed on the linked stack |
| CrashBacktrace.CrashHandling.RestoreAll | cutter/cut-crash-backtrace.c:243-252 | every remembered action is put back, and no other |
| CrashBacktrace.CrashHandling.FreeGuard | cutter/cut-crash-backtrace.c:240-257 | the newest guard is popped |
| CrashBacktrace.CrashHandling.HandleSignal | cutter/cut-crash-backtrace.c:170-189 | the process gives up on a second crash, and else frees the newest guard and jumps to it |
| Elf.ElfLoader.IsElf | cutter/cut-elf-loader.c:168-236 | the class of a dynamic library in the ELF format |
| Elf.ElfLoader.CollectSymbolInformation | cutter/cut-elf-loader.c:248-362 | the loop over the section headers finds the specified tables |
| Elf.ElfLoader.CollectSymbols | cutter/cut-elf-loader.c:399-465 | the loop over the symbols collects the specified names |
| Elf.ReadsObject | cutter/cut-elf-loader.c:248-465 | for every image of an object, in either class, the reader gives the names of its global functions in the text section, last one first |
| Elf.WidthIndependent | cutter/cut-elf-loader.c:248-465 | a 32-bit and a 64-bit image of one object read the same |
| ElfImage.ImageRepresents | cutter/cut-elf-loader.c:248-465 | every object within the limits of the format has an image in either class |
| ElfImage.ImageRoundTrip | cutter/cut-elf-loader.c:168-465 | which is recognised as of its class and read back |
| ElfLaws.LayoutsMatch | cutter/cut-elf-loader.c:248-465 | the reader looks for every field where the structures of the format, member after member, have it |
| ElfLaws.IdentifyIff | cutter/cut-elf-loader.c:168-236 | a file is taken for a dynamic library of a class exactly by its magic bytes, its class byte and its type |
| ElfLaws.ExpectedIff | cutter/cut-elf-loader.c:399-465 | the names returned are those of the symbols of type 2 and binding 1 in the last section named ".text", none without tables of dynamic symbols and their names |

## Left out

- RecogniseGcc.RecoversIff: asks for a symbol shorter than the largest 64-bit number.
- RecogniseGcc.PrintRecognisedIff: asks for the same.
- RecogniseGcc.DataSetupIff: asks for the same.
- MangleGcc.SkipCppNamespace: a length that runs past the end of the symbol is rejected; the original reads on
  behind the string.
- Repository.ModulesOnce: names must differ within a directory, as file systems see to.
- Elf.ElfLoader.CollectSymbolInformation: a read outside the file is reported as such; the original reads on. Sums
  and products of offsets do not wrap around.
- Elf.ElfLoader.CollectSymbols: a read outside the file gives no result; the original reads on. Sums and products
  of offsets do not wrap around.
- CrashBacktrace.EveryStateRestorable: guards are freed newest first; signals arrive between calls, not within them;
  putting back an action that was replaced does not fail.
- The attributes setup names of C++ tests: the pointer differences in the original do not make the names meant.
- Attribute functions of C++ tests and the test named just "test_": no function is ever found, or the name is cut
  before the start of the string.
- The name of the case for C tests, made from the file name, is a parameter.
- Ratios are reals, and sizes in the sequence matcher are not cut to 32 bits.
- The width of wide characters is a table given as a parameter; no ASCII character is wide.
- Padding that begins behind the end of its line is empty; the original walks over the end of the string there.
- Console colours, and the string writer's removal of a last newline from an empty text, which reads before the
  buffer; the model leaves an empty text empty.
- The unified differ, folding of long diffs and the test whether a diff is interesting: smaller variants of what is here.
- Tests that catch exceptions themselves, results sent by child processes, runs that stop at the first failure, and
  jumps from other threads than the main one.
- Backtraces: their collection, parsing and printing.
- The Mach-O and PE readers, libbfd and the byte scan for symbols.
- Everything around the modelled parts: command line, factories, reports, per-type assertion helpers, real files,
  processes and signals.
