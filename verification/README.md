# A verified model of git-ai's authorship tracking

git-ai records which author (a person or an AI agent) wrote which part of a file. This project models the
algorithms that carry that record along and proves what they promise:

- **From an old text to a new one** (`Text`, `DiffOps`, `LineChanges`, `Tokenizer`, `EditScript`, `TokenDiff`,
  `HunkDiffs`, `Ranges`, `Attributions`, `Unattributed`, `Cursors`, `Transform`, `Ownership`, `MoveDetection`,
  `Moves`, `Checkpoint`, `Inheritance`, `Markers`, `MovedText`, `EditExamples`, `MoveFailures`, `CopyFailures`).
  Hunks of the diff library become line operations, changed hunks become byte diffs, the diffs carry attribution
  ranges over, and the ranges are merged. The meaning of a list of attributions is the set of (author, ts) pairs
  that cover each position; every stage is proved against that meaning, up to the outcome of a whole checkpoint.
- **From characters to lines and back** (`LineOwnership`, `LineEvidence`, `LineOutcome`): a sweep over the lines with
  a set of active ranges, which ranges have a say in a line, the round trip between line attributions and character
  ranges, and whom a checkpoint names for the lines that it changed.
- **The authorship log** (`LogText`, `AuthorshipLog`, `LogMeaning`, `LineRanges`): printer and parser of the text
  format, what the parser makes of any text, the set algebra of line ranges and their run-length compression.
- **Token refresh** (`TokenRefresh`, `TokenResults`): double-checked locking around a shared credential store, as a
  state machine of any number of threads whose steps interleave freely, and what a call returns.
- **Two self-contained codes**: base64url three times over (`Base64Url`) and secret redaction (`Secrets`).

How the model is built:

- The functions are the specifications. A loop of the program is a method with the same loop, proved to compute its
  function or stated directly by what it finds; the lemmas then say what the function means. `array` and `class` are
  used where the program rewrites a slice or a field in place.
- The Myers diff is a function parameter `Differ`. All that is assumed of it (`HonestDiffer`) is that the hunks it
  returns are ordered and that the stretches between them are equal on both sides.
- Unicode tables are a parameter `CharClass`; every theorem holds for any tables that agree with Unicode on ASCII
  whitespace and graphic characters and in which nothing is both whitespace and alphanumeric. The hash function of
  move detection and the randomness test of redaction are arbitrary functions.
- Text is a sequence of characters and a position is an index into it. UTF-8 widths matter in one place, the search
  for unattributed ranges, and are modelled there.
- `Prelude` and `Sorting` hold what the others share; sorting stands for the stable sort of the standard library.

Where a property holds only under a condition, the condition is proved to be the right one: compression round-trips
if and only if no line number wraps (`LineRanges.RoundTripIff`), a path survives the log if and only if it is good
(`AuthorshipLog.PathComesBackIff`), the metadata text survives if and only if it is line-stable
(`LogText.JoinLinesIff`), the log parser panics if and only if a lone quote stands where a path is read
(`AuthorshipLog.ParsePanicsIff`), shifting is right if and only if the range fits the change
(`LineRanges.ShiftIsExactIff`), normalising line endings twice changes nothing if and only if no bare carriage return
stands before a CRLF (`LineChanges.NormalizeTwiceIff`), and three conditions on the moves of a checkpoint are exactly
what its bounds, its copied text and its coverage need (`MovedText`); for each of the three there are texts on which
the checkpoint, from its line diff to its output, fails it (`MoveFailures`, `CopyFailures`). Two runs show that token
refresh needs both of its assumptions (`TokenRefresh.FailedWriteRepeatsToken`,
`TokenRefresh.LegacyBindingRepeatsToken`). The comment on the refresh lock speaks of preventing concurrent refreshes
only; the model follows the code, in which a failed write after a refresh is ignored.

`dafny verify dfyconfig.toml` checks everything. Nothing of the program itself is executed.

## Model

| member | source | states |
|---|---|---|
| Text.LineRangesPartition | src/authorship/attribution_tracker.rs:1897-1936 | The line ranges of a text follow each other without gap or overlap from 0 to its end, and each ends right after its newline or at the end of the text |
| Text.LinePartitionUnique | src/authorship/attribution_tracker.rs:1897-1936 | There is only one such partition, so it is an independent definition of what a line splitter has to find |
| Text.CollectLineBoundaries | src/authorship/attribution_tracker.rs:1897-1923 | The boundaries found in one pass over the text are exactly that partition |
| Text.CollectLineMetadata | src/authorship/attribution_tracker.rs:188-226 | Numbers, bounds and texts (without the newline and one carriage return before it) of exactly the lines of the partition |
| Text.LineTextMeaning | src/authorship/attribution_tracker.rs:193-223 | The text of a line is the line without what ends it: a newline, a carriage return and a newline, or at the end of the text one carriage return |
| Prelude.TrimMeaning | src/authorship/move_detection.rs:195-201 | Trimming takes blanks off both ends and leaves none there |
| Prelude.StrLeMeaning | src/authorship/attribution_tracker.rs:1810-1816 | Authors compare by the first character that differs, and a prefix comes first |
| Text.SplitLinesWithTerminators | src/authorship/imara_diff_utils.rs:268-282 | The slices cut at newlines are exactly the lines of the partition, terminators included |
| Text.LinesAreLineList | src/authorship/imara_diff_utils.rs:268-282 | The lines joined are the text; each is non-empty, has its newline only at its end, and only the last may lack one |
| Text.LinesOfConcat | src/authorship/imara_diff_utils.rs:268-282 | Conversely every such list of lines is what splitting its concatenation gives |
| DiffOps.OpsOfTile | src/authorship/imara_diff_utils.rs:288-352 | Valid hunks become ops that tile both sides: in order, gapless, Equal ops join equal elements, and Delete, Insert and Replace ops are non-empty |
| DiffOps.HunksToDiffOps | src/authorship/imara_diff_utils.rs:288-352 | The loop with two counters pushes, hunk by hunk, the op of the gap and the op of the hunk, and the tail |
| DiffOps.DiffTiles | src/authorship/imara_diff_utils.rs:129-147 | The ops of any two sequences tile them, given only that the library returns ordered hunks with equal gaps |
| DiffOps.HonestAnswers | src/authorship/imara_diff_utils.rs:129-136 | What is assumed of the library is no more than said: for any two sequences, hunks can be the answer of a library that meets the assumption if and only if they are valid |
| DiffOps.CounterpartOfOps | src/authorship/imara_diff_utils.rs:288-352 | The op list pairs new element k with exactly the old element the hunks pair it with |
| DiffOps.CounterpartIsEqual | src/authorship/imara_diff_utils.rs:288-352 | A new element and the old element it is paired with are equal |
| DiffOps.RoleOfOps | src/authorship/imara_diff_utils.rs:288-352 | The op list gives each new element the role that the hunks give it: paired with an old element, first of a changed stretch (with the old element it starts to replace), or later in one |
| LineChanges.FastPathAgrees | src/authorship/imara_diff_utils.rs:260-266 | Returning a text without carriage returns unchanged agrees with the full replacement |
| LineChanges.NormalizeCommutesWithSplit | src/authorship/imara_diff_utils.rs:260-282 | Normalising line endings and splitting commute: the number of lines is kept and each line is normalised on its own |
| LineChanges.NormalizeIsNotIdempotent | src/authorship/imara_diff_utils.rs:260-266 | A concrete text for which normalising twice differs from normalising once |
| LineChanges.NormalizeTwiceIff | src/authorship/imara_diff_utils.rs:260-266 | For every text: normalising twice is normalising once if and only if no bare carriage return stands before a CRLF |
| LineChanges.NormalizeCrLf | src/authorship/imara_diff_utils.rs:260-266 | A CRLF anywhere in a text becomes a newline, and what stands before and after it is normalised on its own |
| LineChanges.NormalizeKeeps | src/authorship/imara_diff_utils.rs:260-266 | A text without a CRLF stays as it is; with the row before this says what becomes of any text |
| LineChanges.ComputeLineChanges | src/authorship/imara_diff_utils.rs:178-258 | Equal and Insert values are the new lines and concatenate to the new text; the i-th Equal or Delete entry is the i-th old line, exactly for Delete and up to normalisation for Equal; every tag is the one that the pairing of the normalised lines calls for: Equal for new line j at old line i if the diff of the normalised lines pairs them, Insert for a new line and Delete for an old line that it leaves alone |
| LineChanges.NewLineTag | src/authorship/imara_diff_utils.rs:178-258 | So a new line is Equal if and only if the diff of the normalised lines pairs it, and then it stands at its old line; otherwise it is an Insert |
| LineChanges.OldLineTag | src/authorship/imara_diff_utils.rs:178-258 | An old line is Equal if and only if some new line is paired with it; otherwise it is a Delete |
| LineChanges.NoHunksAllEqual | src/authorship/imara_diff_utils.rs:178-258 | If the library sees no difference between the normalised lines, every change is Equal |
| Tokenizer.NextToken | src/authorship/attribution_tracker.rs:1324-1549 | String, number, identifier, operator and fallback branches end the token where the token grammar says, and the lexeme is the slice |
| Tokenizer.TokenizeNonWhitespace | src/authorship/attribution_tracker.rs:1324-1549 | Terminates on every range and returns the token list of the grammar |
| Tokenizer.TokensTokenize | src/authorship/attribution_tracker.rs:1324-1549 | The tokens are non-empty, in order, disjoint, inside the range, equal to their slices, and only whitespace lies between them |
| Tokenizer.TokenizesOrdered | src/authorship/attribution_tracker.rs:1324-1549 | The same as facts about any two tokens of the list |
| Tokenizer.NonBlankIsInToken | src/authorship/attribution_tracker.rs:1324-1549 | Every non-blank character of the range lies in some token |
| Tokenizer.StringEndIsFirstClosingQuote | src/authorship/attribution_tracker.rs:1346-1379 | A string token ends right after its first quote that is not escaped, or at the end of the range |
| Tokenizer.TokenEndMeaning | src/authorship/attribution_tracker.rs:1324-1549 | What ends a token, by what starts it: two characters for an operator pair, the first closing quote, the first character that does not go on a radix number, a decimal number (with a sign only after an exponent mark) or an identifier, and otherwise one character |
| EditScript.AppendRangeDiffs | src/authorship/attribution_tracker.rs:1551-1580 | Text that is equal on both sides is copied, unless a split is forced; otherwise the old text is deleted first and the new text is one insertion after it |
| EditScript.RangeRewrites | src/authorship/attribution_tracker.rs:1551-1580 | The same of the diffs as a function, none of which is empty; they turn the old slice into the new one |
| EditScript.RewritesAppend | src/authorship/attribution_tracker.rs:1551-1762 | Scripts for adjoining slices compose: the concatenation turns the joined old slice into the joined new slice, position by position |
| TokenDiff.BuildTokenAlignedDiffs | src/authorship/attribution_tracker.rs:1582-1762 | The diffs turn the old range into the new range; a token paired by the token diff is copied from its partner, every inserted or replaced token lies in a substantive range, and substantive ranges are inserted text; text between two pairs (or before the first, after the last, or between a pair and a replacement) that is the same on both sides is copied from its place, any other text between tokens is inserted: with the stretch inside a changed one, elsewhere as one insertion that meets no substantive range; diffs and ranges are those that the token operations determine |
| EditExamples.DeletedTokens | src/authorship/attribution_tracker.rs:1646-1671 | A hunk without new text whose tokens the library deletes as one: the text before the first token, the text from the first to the last token, and the rest are three deletions |
| EditExamples.InsertedTokens | src/authorship/attribution_tracker.rs:1673-1699 | The same for a hunk without old text |
| HunkDiffs.HunkLineBounds | src/authorship/attribution_tracker.rs:1167-1215 | Minimum and maximum over the ops of a hunk are the first and last line of the chain |
| HunkDiffs.ByteRangeIsSpan | src/authorship/attribution_tracker.rs:1236-1262 | The byte range of a line range runs from the start of its first line to the start of the line after it, or the end of the text |
| HunkDiffs.LineAlignedIff | src/authorship/attribution_tracker.rs:1217-1234 | A hunk is split by lines if and only if it has one to eight ops and one side has 262144 characters, or one side 32768 and one side 256 lines |
| HunkDiffs.ProcessChangedHunk | src/authorship/attribution_tracker.rs:413-498 | What the call appends: AI split, line-aligned fast path and token path each give a script for exactly the bytes of the hunk, with what is known of every token or of the hunk as a whole |
| HunkDiffs.RunsUpTo | src/authorship/attribution_tracker.rs:301-380 | A changed hunk is a maximal run of changed line operations; between two Equal operations there is only one |
| HunkDiffs.HunkOfRun | src/authorship/attribution_tracker.rs:413-498 | The text a call handles runs from the start of the first line of its run to the end of the last, and it is split by lines exactly in an AI checkpoint or where the size test says so |
| HunkDiffs.PushEqualLinesOp | src/authorship/attribution_tracker.rs:382-411 | Pushes the text of the equal lines, nothing for no text, and an error for any other op |
| HunkDiffs.ComputeDiffs | src/authorship/attribution_tracker.rs:301-380 | On every path the result is an edit script without empty diffs (Equal and Delete data give the old text, Equal and Insert data the new text); every new line is copied from the old line the line diff pairs it with or lies in a maximal changed run; every such run, with bounds and path determined by the line operations, is accounted for token by token and gap by gap, or as one inserted segment; the whole script is the one that the texts and the answers of the library determine, run by run; the error return is never taken |
| HunkDiffs.MergeKeepsAccount | src/authorship/attribution_tracker.rs:365-380 | Merging the substantive ranges at the end loses nothing that was said with them |
| Ranges.MergeRanges | src/authorship/attribution_tracker.rs:1764-1789 | The result is separated and increasing, covers exactly the points of the input, and keeps every input range in one piece |
| Ranges.RangesIntersect | src/authorship/attribution_tracker.rs:1791-1808 | With its early exits the scan of separated ranges answers exactly whether some range overlaps the target |
| Ranges.OverlapIsSharedPoint | src/authorship/attribution_tracker.rs:1764-1808 | Overlapping a merged range is the same as sharing a point with one of the original ranges |
| Attributions.MergeAttributions | src/authorship/attribution_tracker.rs:1129-1164 | Sort, dedup and the coalescing loop compute the function the next four rows are about |
| Attributions.MergeCorrect | src/authorship/attribution_tracker.rs:1129-1164 | Every position keeps exactly its (author, ts) pairs, the empty ranges stay the same, and the list is in order although coalescing moves ends after the sort |
| Attributions.MergedIsSorted | src/authorship/attribution_tracker.rs:1810-1822 | The shape that merging leaves is sorted by the comparison order |
| Attributions.MergedNeighbours | src/authorship/attribution_tracker.rs:1129-1164 | Neighbours of a merged list are in order of start and end, and two non-empty ones of one author and timestamp neither overlap nor touch |
| Attributions.MergeOfMerged | src/authorship/attribution_tracker.rs:1129-1164 | A list of that shape merges to itself |
| Attributions.MergeIsIdempotent | src/authorship/attribution_tracker.rs:1129-1164 | Merging twice is merging once, for every list |
| Unattributed.AttributeUnattributedRanges | src/authorship/attribution_tracker.rs:500-538 | The given list stays a prefix; exactly the maximal uncovered runs of characters are appended, in order and with the new author; afterwards every character is overlapped |
| Unattributed.SameGap | src/authorship/attribution_tracker.rs:500-538 | Two maximal uncovered runs that share a character are the same run |
| Cursors.CollectOverlaps | src/authorship/attribution_tracker.rs:913-939 | From a forward-moving cursor over a list sorted by start, the scan copies exactly the attributions overlapping the segment, clipped and shifted, as a scan of the whole list would |
| Cursors.CopyOwners | src/authorship/attribution_tracker.rs:913-939 | The copy gives each position of the target exactly the owners of the matching source position, and no other position an owner |
| Cursors.FindAttributionForInsertion | src/authorship/attribution_tracker.rs:1830-1878 | From its cursor the search returns what the search of the whole list returns, and the cursor stays valid |
| Cursors.BestCoveringMeaning | src/authorship/attribution_tracker.rs:1830-1878 | If an attribution covers the position, the result covers it, none covering it has a larger (ts, length), and it is the first of its kind; None exactly when nothing covers it |
| Transform.BuildDiffCatalog | src/authorship/attribution_tracker.rs:655-695 | Deletions and insertions with their byte ranges in the old and the new text, in script order |
| Transform.BuildMoveMaps | src/authorship/attribution_tracker.rs:868-897 | The two maps hold, for every deletion, its moves in order of their source and, for every insertion, its target ranges |
| Transform.CopyMoveSources | src/authorship/attribution_tracker.rs:949-988 | Sources taken in sorted order with one forward cursor copy the same attributions as one scan of the list per move |
| Transform.TransformAttributions | src/authorship/attribution_tracker.rs:860-1126 | The whole pass with its cursors and position counters equals the cursor-free transformation, of which the following rows say what it does to every position |
| Ownership.NoInventedOwner | src/authorship/attribution_tracker.rs:860-1126 | With or without moves, every output range belongs to the current author and timestamp or to an owner of the old list |
| Ownership.RunOwners | src/authorship/attribution_tracker.rs:860-1126 | With or without moves, every position, also beyond the new text, has exactly the owners that copying and inserting give it and those that a kept move lays over it |
| Ownership.BaseOwners | src/authorship/attribution_tracker.rs:860-1126 | What copying and inserting give: a copied position the owners of its old position; an inserted one exactly one owner (the current author in an AI checkpoint, in a segment with a newline or one that meets a substantive range); around moves the current author, and nobody inside a target; beyond the text nobody |
| Ownership.RunBounds | src/authorship/attribution_tracker.rs:860-1126 | Every output range ends within the new text if every kept move does when its source is laid over its target; without moves always |
| Ownership.MovedInsertOwners | src/authorship/attribution_tracker.rs:1002-1052 | In an insertion with move targets, the current author gets exactly the positions that no target covers |
| Inheritance.FindMeaning | src/authorship/attribution_tracker.rs:1830-1878 | The search for the owner of an insertion finds one exactly if there are attributions: the best that covers the position, or, if none does, the last of those that end by it before one that does not, or the first |
| Inheritance.PlainInsertInherits | src/authorship/attribution_tracker.rs:1074-1117 | An insertion of a human checkpoint without newline, substance and moves adds one range: blank text that replaces blank text takes the owner that the old text has at its place, any other text the owner of the range written before it, and the current author comes in only if there is neither |
| Inheritance.PlainPosition | src/authorship/attribution_tracker.rs:1074-1117 | The same position by position: every character of such an insertion has exactly this owner before moves |
| Inheritance.InheritsOwner | src/authorship/attribution_tracker.rs:1074-1117 | If the old text is all one owner and such an insertion follows copied text, with at most blank deletions in between, every character of it is exactly that owner |
| Inheritance.ReformattingKeepsOwner | src/authorship/attribution_tracker.rs:568-615 | From end to end: in a human checkpoint over text that is all one owner, whatever stands on one line between paired tokens after the edit is exactly that owner, away from moves, whether it was there before or not |
| Markers.RunMarksIff | src/authorship/attribution_tracker.rs:989-1006 | The empty ranges of the output are exactly the marks of deletions: of those that no move takes text from and that, in a human checkpoint, delete something visible; each stands where the deleted text was, for the current author |
| Markers.ResultMarksIff | src/authorship/attribution_tracker.rs:568-615 | So are the empty ranges of the result of a checkpoint |
| Moves.LinesTouching | src/authorship/attribution_tracker.rs:724-748 | The records of the touched lines, in the order of the function the next row is about |
| Moves.TouchedMeaning | src/authorship/attribution_tracker.rs:724-748 | That list has exactly one record for each line and each segment it touches, ordered by segment and then by line |
| Moves.TouchedDetermined | src/authorship/attribution_tracker.rs:724-748 | There is only one such list, so these two facts are an independent definition of it |
| Moves.SpanOfLines | src/authorship/attribution_tracker.rs:798-840 | The clipped span from the first to the last line, or nothing as soon as a line has no part in the segment |
| Moves.DetectMoves | src/authorship/attribution_tracker.rs:697-858 | The line moves are exactly what the search finds on those records; their byte ranges, where a move stays inside one deletion and one insertion, in order; each joins a block of at least threshold non-blank old lines to as many new lines, equal one by one after trimming; no two share a character of their targets |
| Moves.AllByteMovesApart | src/authorship/attribution_tracker.rs:760-855 | Line moves without a common inserted line have byte targets that do not overlap within an insertion |
| Moves.ByteMoveIsBlockMove | src/authorship/attribution_tracker.rs:760-855 | The byte ranges run from the first to the last line of the two blocks, as far as the two edits reach, and lie inside them |
| Moves.FoundByteMove | src/authorship/attribution_tracker.rs:760-855 | Of the line moves found between two texts exactly those inside one deletion and one insertion get byte ranges, in these two edits and over these lines |
| Moves.SkipIff | src/authorship/attribution_tracker.rs:617-652 | Detection is skipped if and only if it is switched off, there are no deletions or no insertions, there are more than 256 of them, or a text of at least 65536 characters has three halves of its length edited |
| Moves.TotalLengthPush | src/authorship/attribution_tracker.rs:639-647 | The edited length is the sum of the lengths of the deletions or insertions |
| MoveDetection.SortAndNormalize | src/authorship/move_detection.rs:195-201 | In place: the records stably sorted by line number with trimmed content |
| MoveDetection.PreparedMeaning | src/authorship/move_detection.rs:195-201 | The prepared records are the given ones with trimmed content, in order of their line numbers, and in their old order for one number |
| MoveDetection.BuildGroups | src/authorship/move_detection.rs:203-231 | The loop returns the groups the next row describes |
| MoveDetection.GroupsAreMaximalRuns | src/authorship/move_detection.rs:203-231 | The groups are exactly the maximal runs of at least threshold non-blank lines with consecutive numbers (blank lines do not interrupt a run), once each, disjoint and in list order |
| MoveDetection.BuildDeletionLookup | src/authorship/move_detection.rs:233-247 | The table holds for each hash exactly the deleted places with that hash, in order |
| MoveDetection.HashChangesNothing | src/authorship/move_detection.rs:83-127 | Looking only at places with the same hash finds the same first match as looking at all places, for every hash function |
| MoveDetection.MatchLenMeaning | src/authorship/move_detection.rs:95-112 | A match extends exactly as long as the two groups agree |
| MoveDetection.DetectMoves | src/authorship/move_detection.rs:55-150 | The mappings are the matches of a search in which no hash function occurs |
| MoveDetection.DetectedMovesAreMoves | src/authorship/move_detection.rs:55-150 | Soundness: each mapping pairs equally many (at least threshold) non-blank lines, consecutive on both sides and pointwise equal after trimming |
| MoveDetection.DetectedMovesAreGreedy | src/authorship/move_detection.rs:55-150 | Completeness: matches come in order, use no inserted line twice, and no uncovered inserted position starts a run of threshold lines in any deleted group |
| MoveDetection.DetectedMovesAreFirst | src/authorship/move_detection.rs:83-127 | Choice: each match extends as far as the lines agree, and no earlier place of the deleted groups starts a run of threshold lines with its first line |
| MoveDetection.DetectedApart | src/authorship/move_detection.rs:55-150 | Two mappings never name the same line of the same insertion, after sorting and trimming |
| Checkpoint.SortForTransform | src/authorship/attribution_tracker.rs:1818-1828 | Sorted attributions with the same members, whether or not they were sorted before |
| Checkpoint.UpdateAttributionsForCheckpoint | src/authorship/attribution_tracker.rs:568-615 | Always succeeds with a merged list; no owner is invented; moves are sound, do not share targets, and are absent in AI checkpoints and where detection is skipped; elsewhere they are the byte ranges of exactly what the search finds on the edits of the script; the outcome of the rows below holds, with moves too; all ranges lie in the new text if the kept moves do |
| Checkpoint.OutcomeHolds | src/authorship/attribution_tracker.rs:568-615 | Position by position, line by line and changed run by changed run the owners are those of the rows below, where moves only add what they lay over a position and empty their targets |
| Checkpoint.AiLineHolds | src/authorship/attribution_tracker.rs:568-615 | AI checkpoint: a line of a changed hunk belongs to exactly (current author, ts), and a line outside has, character by character, exactly the owners of its old line |
| Checkpoint.HumanTokensHold | src/authorship/attribution_tracker.rs:568-615 | Human checkpoint, changed run below the size limits: an inserted or replaced token belongs to exactly (current author, ts), and a paired token keeps exactly its owners, up to moves |
| Checkpoint.HumanGapsHold | src/authorship/attribution_tracker.rs:568-615 | The text between the tokens of such a run: the same on both sides of two pairs it keeps exactly its owners, inside a changed stretch or with a newline in new text it is the current author, and otherwise it has one owner, up to moves |
| Checkpoint.UnchangedGapKept | src/authorship/attribution_tracker.rs:568-615 | In particular: text between two neighbouring pairs of tokens, or before the first or after the last, that is the same on both sides keeps exactly its owners |
| Checkpoint.HumanLinesHold | src/authorship/attribution_tracker.rs:568-615 | Human checkpoint, changed run on the line-aligned fast path: every position has one owner, the current author unless the new text of the run is blank and has no newline, up to moves |
| Checkpoint.HumanLineHolds | src/authorship/attribution_tracker.rs:568-615 | Human checkpoint: lines outside the changed runs keep exactly their owners up to moves, and every other line lies in a changed run |
| MovedText.CheckpointFits | src/authorship/attribution_tracker.rs:568-615 | What the checkpoint method guarantees of its script and its moves is what the next rows ask for |
| MovedText.BoundsIff | src/authorship/attribution_tracker.rs:949-988 | The output lies within the new text for every list of old attributions if and only if every kept move, its source laid over its target, ends there |
| MovedText.CopiedIff | src/authorship/attribution_tracker.rs:860-1126 | Copied text has exactly its old owners for every list if and only if no kept move lays its source over copied text |
| MovedText.CoverageIff | src/authorship/attribution_tracker.rs:860-1126 | A fully attributed text stays fully attributed if and only if kept moves lay something over every position of every target |
| MovedText.FilledIff | src/authorship/attribution_tracker.rs:868-888 | Where sources are as long as their targets, that is the case if and only if the duplicate test drops no move |
| MovedText.CoverageIsKept | src/authorship/attribution_tracker.rs:568-615 | Without moves a fully attributed old text gives a fully attributed new text |
| MovedText.MovedTextKeepsOwners | src/authorship/attribution_tracker.rs:860-1126 | If sources are as long as their targets and no move is dropped: every target has, position by position, exactly the owners of its source, copied text exactly its own, all ranges lie in the new text, and full attribution is kept |
| MoveFailures.BlockScript | src/authorship/attribution_tracker.rs:301-380 | On a block of three lines that loses its indentation as it moves down past one line, with any text after it, the script of the checkpoint is the one written out, cut at the first and the last token of each hunk |
| MoveFailures.SearchFindsBlock | src/authorship/attribution_tracker.rs:697-858 | On the edits of that script the search finds exactly one move, with a source of 7 and a target of 5 characters |
| MoveFailures.ReindentedBlockLeavesText | src/authorship/attribution_tracker.rs:949-988 | If the text ends there: for every full attribution of the old text, the output of the checkpoint leaves the new text |
| MoveFailures.ReindentedBlockCoversCopy | src/authorship/attribution_tracker.rs:949-988 | If it goes on: the source of the move is laid over the first character of the copied text, which does not keep its owners for every list |
| MoveFailures.SomeOnBlock | src/authorship/attribution_tracker.rs:568-615 | There are such checkpoints, for every text that follows and all attributions |
| CopyFailures.CopyScript | src/authorship/attribution_tracker.rs:301-380 | On a block of three lines that moves down past four lines and is copied past a fifth, the script of the checkpoint is the one written out |
| CopyFailures.SearchFindsBoth | src/authorship/attribution_tracker.rs:697-858 | On the edits of that script the search finds exactly two moves, with the same source and the same range in their insertions |
| CopyFailures.SecondCopyHasNoOwner | src/authorship/attribution_tracker.rs:868-888 | The second of them is dropped as a duplicate of the first: for every full attribution of the old text, the positions of the second copy belong to nobody after the checkpoint |
| CopyFailures.SomeOnCopy | src/authorship/attribution_tracker.rs:568-615 | There are such checkpoints, for all attributions |
| LineOwnership.SweepOrderCorrect | src/authorship/attribution_tracker.rs:2025-2040 | The sweep order is a permutation of the entries sorted by (start, end, index) |
| LineOwnership.ActiveIsEnough | src/authorship/attribution_tracker.rs:2010-2077 | For every line the active set after the retain step is exactly the sorted list filtered by overlap, so the label is the one a search of the whole list gives |
| LineOwnership.LineAuthorIsLatest | src/authorship/attribution_tracker.rs:2080-2167 | The author of a line is that of the candidate with the largest timestamp, the first by (start, end, index) on ties, over all attributions; without a candidate the line is plain human |
| LineOwnership.LineOverrodeIff | src/authorship/attribution_tracker.rs:2146-2167 | A line overrode x if and only if x wrote the last AI candidate and the last human candidate has a larger timestamp than that one, where last is by (start, end, index) and not by time |
| LineOwnership.LaterEditNotSeen | src/authorship/attribution_tracker.rs:2146-2167 | Three edits where a human edit later than the AI edit goes unseen, because an older human edit starts further right |
| LineEvidence.CandidateIff | src/authorship/attribution_tracker.rs:2089-2132 | A range that overlaps the line counts for it if and only if it covers a visible character of it, the line is blank, it is a deletion marker, or the checkpoint is an AI one and the author is neither "human" nor starts with "h_" |
| LineEvidence.BlankRangeChangesNothing | src/authorship/attribution_tracker.rs:2096-2132 | Without a non-empty range that covers only blanks of a line with a visible character, the line has the same author and overrode the same, except for the range of an AI in an AI checkpoint |
| LineEvidence.BlankRangeOnLine | src/authorship/attribution_tracker.rs:2003-2077 | The same for the label of each line of a text |
| LineEvidence.LatestRangeDecides | src/authorship/attribution_tracker.rs:2096-2144 | A range with the one largest timestamp names the line if it covers a visible character of it, marks a deletion inside it, overlaps a blank line, or is an AI range in an AI checkpoint |
| LineOwnership.FindDominantAuthor | src/authorship/attribution_tracker.rs:2080-2167 | The scan over the candidates returns the label that the rows above and those of LineEvidence describe |
| LineOwnership.MergeConsecutive | src/authorship/attribution_tracker.rs:2170-2231 | The output is in normal form (sorted, disjoint, maximal) and gives each line exactly its label |
| LineOwnership.NormalFormUnique | src/authorship/attribution_tracker.rs:2170-2231 | A normal form is determined by the labels it gives, so merging has only one correct output |
| LineOwnership.StrippedAuthorship | src/authorship/attribution_tracker.rs:2060-2077 | After dropping plain human entries the list is still in normal form and decodes to exactly the remaining labels |
| LineOwnership.AttributionsToLineAttributions | src/authorship/attribution_tracker.rs:2003-2077 | Sweep, merge and filter: the output is in normal form, within the lines of the text, and decodes to exactly the per-line labels minus those with author "human" and nobody overridden |
| LineOwnership.LineAttributionsToAttributions | src/authorship/attribution_tracker.rs:1962-2000 | Every line attribution whose lines exist becomes one character range, in order; others are skipped |
| LineOwnership.CharRangesAt | src/authorship/attribution_tracker.rs:1962-2000 | With all lines in range the k-th character range runs from the start of the first to the end of the last line of the k-th line attribution |
| LineOwnership.CharRangesMeaning | src/authorship/attribution_tracker.rs:1962-2000 | For any list: one range for each attribution both of whose lines exist, none for any other, in order |
| LineOwnership.LineRoundTrip | src/authorship/attribution_tracker.rs:1962-2077 | Line attributions in normal form, in range, without plain human authors or overrode, come back unchanged for every text, timestamp and kind of checkpoint |
| LineOwnership.RoundTripLines | src/authorship/attribution_tracker.rs:1962-2077 | The same for the two conversion methods run one after the other |
| LineOutcome.ResultMarks | src/authorship/attribution_tracker.rs:989-1000 | In an AI checkpoint every empty range of the output is a deletion marker of the current author; old markers are not copied |
| LineOutcome.OneOwnerLabel | src/authorship/attribution_tracker.rs:2080-2167 | A line whose characters all have one owner, and that holds no marker of another, names that owner and overrode nobody, blank lines included |
| LineOutcome.NewLinesAreNamed | src/commands/checkpoint.rs:2186-2211 | From end to end: after an AI checkpoint every line of a changed hunk is labelled with the AI author and overrode nobody, whatever the old attributions and their timestamps |
| LineOutcome.NewTextNamed | src/commands/checkpoint.rs:2186-2211 | From end to end: after a human checkpoint that is later than all old attributions, a line with one visible character of new text, which no move brought, is labelled with that human |
| LineOutcome.MakeEntryForFile | src/commands/checkpoint.rs:2156-2233 | Update and conversion in a row: the line attributions are the labels minus plain human ones; they list every changed line of an AI checkpoint for the AI alone, and every line with new text of a human checkpoint for the human; without moves a full attribution is kept |
| TokenRefresh.StepKeepsInv | src/api/client.rs:54-98 | Every action of every thread keeps the invariant, where a failed store write raises its count by one: lock and program counters agree, and the finished refreshes that presented a replaced token, plus one if such a token can still be presented, are no more than the failed writes |
| TokenRefresh.InvAlways | src/api/client.rs:54-98 | The invariant holds before every step of every run of any number of threads, given server-bound credentials |
| TokenRefresh.RepeatsBounded | src/api/client.rs:86-90 | Each failed write costs at most one refresh that presents a replaced token |
| TokenRefresh.StepKeepsLock | src/api/client.rs:62-66 | Every action, failed writes and bindings of legacy credentials included, keeps the lock and the program counters in agreement |
| TokenRefresh.OneRefresher | src/api/client.rs:54-98 | In every run, whatever fails and whatever is stored, at most one thread is refreshing at a time; it holds the lock and its access token is about to expire |
| TokenRefresh.NoReplacedToken | src/api/client.rs:54-98 | Once a refresh that presented a token has completed, no thread ever presents that token again |
| TokenRefresh.SettledWhileCalm | src/api/client.rs:72-80 | As long as stored credentials stay usable and nobody logs in or out, no thread refreshes |
| TokenRefresh.WaiterReusesToken | src/api/client.rs:67-80 | A thread waiting for the lock while another stores usable credentials never refreshes and can only end with their access token |
| TokenRefresh.WaiterFinishes | src/api/client.rs:67-80 | Once the lock is free such a thread returns that token in four steps of its own |
| TokenRefresh.FailedWriteRepeatsToken | src/api/client.rs:86-90 | The write assumption is needed: after an ignored failed write another caller presents the replaced token |
| TokenRefresh.LegacyBindingRepeatsToken | src/api/client.rs:31-49 | The binding assumption is needed: the unlocked write that binds legacy credentials can undo a finished refresh although no write fails |
| TokenResults.UsableTokenReturned | src/api/client.rs:54-66 | A call for whose server the store holds credentials with an unexpired login and more than 300 seconds of access returns the stored access token; nothing else changes, and the lock is not looked at |
| TokenResults.LegacyTokenReturned | src/api/client.rs:31-66 | So does a call for the configured server with credentials that name no server; the store then holds them bound to it |
| TokenResults.NoLoginNoToken | src/api/client.rs:16-42 | Without credentials, with those of another server, and with unbound ones if another server is configured, the call returns nothing |
| TokenResults.ExpiredLoginNoToken | src/auth/types.rs:46-57 | So does a call whose stored login has expired |
| TokenResults.ExpiringTokenRefreshed | src/api/client.rs:67-84 | With an access token that has no more than 300 seconds left and a free lock, the call takes the lock and presents the stored refresh token |
| TokenResults.RenewedTokenReturned | src/api/client.rs:85-90 | The new access token is returned and the lock released, whether or not the new credentials could be stored |
| TokenResults.RefusedNoToken | src/api/client.rs:91-95 | If the server refuses, nothing is returned and the lock is released |
| TokenResults.PanicPoisons | src/api/client.rs:67-69 | A panic of the thread that holds the lock frees and poisons it, any other panic changes nothing but its own call |
| TokenResults.PoisonStays | src/api/client.rs:67-69 | A poisoned lock stays poisoned |
| TokenResults.PoisonedNoRefresh | src/api/client.rs:67-69 | With a poisoned lock a call whose access token is about to expire returns nothing |
| TokenResults.EveryResult | src/api/client.rs:54-98 | In every run, whatever other threads do and whatever fails, a call returns a token only if it is the access token of credentials that the store held during the call for the called server, with a login seen unexpired during the call and more than 300 seconds of access left when it returns, or of those with which the called server answered this call |
| TokenResults.AnswerIsReturned | src/api/client.rs:85-90 | In every run, once the server has answered a call, that call can only end with the new access token, unless it panics |
| LogText.SplitJoin | src/authorship/authorship_log_serialization.rs:544-585 | Splitting at a separator undoes joining |
| LogText.LinesUnlines | src/authorship/authorship_log_serialization.rs:193-207 | Reading printed lines gives them back |
| LogText.JoinLinesIff | src/authorship/authorship_log_serialization.rs:207-212 | Splitting the metadata text into lines and joining them changes nothing if and only if it has no CRLF and does not end in a newline |
| LogText.ParsePrinted | src/authorship/authorship_log_serialization.rs:544-585 | Decimal printing and the u32 parser (optional plus sign, overflow refused) undo each other |
| LogText.ParseU32Iff | src/authorship/authorship_log_serialization.rs:560-585 | A text is read as n if and only if n fits 32 bits and the text is the decimal digits of n, with any number of zeros and at most one plus sign before them |
| AuthorshipLog.ParseLineRanges | src/authorship/authorship_log_serialization.rs:560-585 | The loop over the comma-separated parts returns the ranges of the non-empty parts, or the first error |
| AuthorshipLog.ParseFormatted | src/authorship/authorship_log_serialization.rs:534-585 | Parsing formatted ranges gives the ranges stably sorted by start |
| AuthorshipLog.SortedRangesMeaning | src/authorship/authorship_log_serialization.rs:534-547 | That sorting keeps the ranges, orders them by start and keeps equal starts in order |
| AuthorshipLog.SerializeToString | src/authorship/authorship_log_serialization.rs:161-192 | Writes the lines of every file, the divider and the metadata |
| AuthorshipLog.ParseAttestationSection | src/authorship/authorship_log_serialization.rs:588-648 | The loop with its current file computes the line-by-line meaning, errors included |
| AuthorshipLog.DeserializeFromString | src/authorship/authorship_log_serialization.rs:205-226 | Splits at the first divider line and returns the parsed files and the metadata text, or the first error |
| LogMeaning.RangesMeaning | src/authorship/authorship_log_serialization.rs:560-585 | A list of parts is refused if and only if some part is neither empty, nor a number, nor two numbers with a dash between them; otherwise it gives the ranges of the non-empty parts in order |
| LogMeaning.ParseMeaning | src/authorship/authorship_log_serialization.rs:205-226 | What any text means: no divider is an error; the first faulty line before the divider is the error (an entry without a space, with a bad range or before any path, or a lone quote); otherwise the files list the entry lines in order, each under the path on the last path line before it, blank lines count for nothing, no file is empty, and the text after the divider is kept |
| LogMeaning.PrintedExample | src/authorship/authorship_log_serialization.rs:161-192 | A printed log, character by character |
| AuthorshipLog.ParsePanicsIff | src/authorship/authorship_log_serialization.rs:205-226 | The parser panics if and only if some line before the divider is, without trailing whitespace, a lone quote, and all lines before that one are read |
| AuthorshipLog.LoneQuotePanics | src/authorship/authorship_log_serialization.rs:628-640 | A text of six characters on which it does |
| AuthorshipLog.PathPanicsIff | src/authorship/authorship_log_serialization.rs:628-640 | A printed path makes it panic if and only if the path is printed unquoted and nothing but a quote is left of it; of the paths that fill a line only the path consisting of a quote |
| AuthorshipLog.PrintedPanicsIff | src/authorship/authorship_log_serialization.rs:161-226 | On a printed log whose paths and entries fill lines of their own the parser panics if some path is a quote, and otherwise reads it |
| AuthorshipLog.PathComesBackIff | src/authorship/authorship_log_serialization.rs:165-173 | A path without newline is read back as itself if and only if it is non-empty, not the divider, and, unless quoted, neither ends in whitespace nor looks quoted |
| AuthorshipLog.ParsePrintedLog | src/authorship/authorship_log_serialization.rs:161-226 | Parsing a printed well-formed log gives the same log with files lacking entries dropped and ranges stably sorted |
| AuthorshipLog.NormalIsFixed | src/authorship/authorship_log_serialization.rs:161-226 | A log of that form is its own normal form, so a second round trip changes nothing |
| AuthorshipLog.RoundTrip | src/authorship/authorship_log_serialization.rs:161-226 | Serialising and deserialising with the two methods gives the normal form and the metadata text back |
| LineRanges.OverlapsIsCommonLine | src/authorship/authorship_log.rs:32-42 | Two ranges overlap exactly when they have a line in common |
| LineRanges.RemoveIsDifference | src/authorship/authorship_log.rs:46-92 | Removal leaves exactly the lines of the range that are not in the removed one, for all ranges, without u32 underflow or overflow |
| LineRanges.RemoveIsTidy | src/authorship/authorship_log.rs:46-92 | On well-formed ranges the pieces are well-formed and disjoint |
| LineRanges.RemovedAllMeaning | src/authorship/authorship_log_serialization.rs:73-86 | Removing a list of ranges from a list leaves exactly the lines of the first that are not in the second |
| LineRanges.RemovedAllTidy | src/authorship/authorship_log_serialization.rs:73-86 | Removal keeps lists well-formed and pairwise disjoint |
| LineRanges.AttestationEntry.RemoveLineRanges | src/authorship/authorship_log_serialization.rs:73-86 | The nested loops replace the list of the entry by that result |
| LineRanges.AttestationEntry.ShiftLineRanges | src/authorship/authorship_log_serialization.rs:89-99 | The list is replaced by the shifted ranges that survive, in order; a line is covered if and only if some shifted range has it |
| LineRanges.ShiftIsExactIff | src/authorship/authorship_log.rs:141-178 | For every offset: the shifted range has exactly the lines of the range after the change (earlier lines stay, later ones move, inserted ones belong to a range they split, deleted ones go; the source does not say which lines a negative offset deletes, and it is read as those just before the given line) if and only if an insertion pushes no part past u32::MAX and a deletion does not reach only its first or only its last line or push part of it below 0 |
| LineRanges.ShiftSurvivesIff | src/authorship/authorship_log.rs:141-178 | When the shift gives a range at all |
| LineRanges.DeletionLosesLine | src/authorship/authorship_log.rs:141-178 | A deletion that reaches the first line of a range: of the two lines that survive one is lost |
| LineRanges.DeletedFromAll | src/authorship/authorship_log_serialization.rs:89-99 | A deletion, on a list of ranges that fit it, leaves exactly the other lines, moved up |
| LineRanges.InsertedIntoAll | src/authorship/authorship_log_serialization.rs:89-99 | An insertion, on a list of ranges that fit it, keeps earlier lines, moves later ones, and adds the inserted ones exactly where they split a range |
| LineRanges.ShiftUndone | src/authorship/authorship_log.rs:141-178 | Deleting the inserted lines again gives the range back, a one-line range as a single line |
| LineRanges.CompressLines | src/authorship/authorship_log.rs:95-128 | The run-length loop computes the list the next rows describe |
| LineRanges.CompressLinesToWorkingLogFormat | src/authorship/authorship_log_serialization.rs:483-524 | The working-log compressor produces the same ranges with the author attached |
| LineRanges.RoundTripIff | src/authorship/authorship_log.rs:95-136 | Expanding the compressed list gives the list back if and only if no line number wraps from u32::MAX to 0 in it |
| LineRanges.CompressedIsCanonical | src/authorship/authorship_log.rs:95-128 | No two neighbouring ranges of the result could be joined |
| LineRanges.CompressExpanded | src/authorship/authorship_log.rs:95-136 | Compressing the expansion of any list without joinable neighbours gives that list back |
| Base64Url.Encode | enterprise-server/src/pagination.rs:126-158 | The text has the letters RFC 4648 section 5 asks for without padding: it is the same number as the bytes, shifted by the zero pad bits of section 3.5 |
| Base64Url.EncodingUnique | enterprise-server/src/pagination.rs:126-158 | Bytes have only one text with that property |
| Base64Url.Vectors | enterprise-server/src/pagination.rs:126-158 | Four texts and their bytes, the two letters that plain base64 does not have among them |
| Base64Url.Decode | enterprise-server/src/pagination.rs:160-191 | Accepts a text if and only if it encodes some non-empty byte string, and then returns that byte string |
| Base64Url.DecodingUnique | enterprise-server/src/pagination.rs:160-191 | A text has only one byte string with that property |
| Base64Url.DecodeEncoded | enterprise-server/src/pagination.rs:126-191 | Both decoders give non-empty bytes back from their encoding |
| Base64Url.EncodeDecoded | enterprise-server/src/pagination.rs:126-191 | Encoding what the strict decoder accepts gives the text back |
| Base64Url.EncodeNoPad | src/auth/pkce.rs:39-60 | The PKCE encoder meets the same specification |
| Base64Url.EncodersAgree | src/auth/pkce.rs:39-60 | The two encoders agree on all inputs |
| Base64Url.DecodeLenient | src/auth/identity.rs:58-87 | With an unmasked buffer that wraps modulo 2^32: accepts exactly the texts whose letters before the first = are in the alphabet and returns their leading whole bytes |
| Base64Url.WrappedStep | src/auth/identity.rs:74-83 | The bits that wrap away are never read |
| Base64Url.DecodersAgree | src/auth/identity.rs:58-87 | Where the strict decoder accepts, the lenient one returns the same bytes |
| Secrets.ExtractTokens | src/authorship/secrets.rs:386-415 | The tokens are exactly the maximal runs of secret characters of length 15 to 90, in order |
| Secrets.SecretAlphabet | src/authorship/secrets.rs:382-384 | The secret characters are the 52 letters, the ten digits and + / _ - . ~ |
| Secrets.RedactSecretsInText | src/authorship/secrets.rs:432-463 | The text with exactly the secrets (random tokens) masked, and their number |
| Secrets.SecretsUnique | src/authorship/secrets.rs:432-443 | A text has only one list of secrets, so the redaction is determined |
| Secrets.RedactedLength | src/authorship/secrets.rs:432-463 | The output is as long as the input plus 16 per secret minus the lengths of the secrets |
| Secrets.OutsideIsKept | src/authorship/secrets.rs:432-463 | Every character outside the secrets is kept, moved by the growth before it |
| Secrets.SecretIsMasked | src/authorship/secrets.rs:419-429 | The mask of the k-th secret (four characters, eight stars, four characters) stands where the growth before it puts it |
| Secrets.RedactedHasNone | src/authorship/secrets.rs:432-463 | Redacted text holds no secret, whatever the randomness test is |
| Secrets.RedactTwice | src/authorship/secrets.rs:432-463 | A second pass finds zero secrets and changes nothing |

## Left out

- Moves.DetectMoves: a move may join line blocks whose byte lengths differ (lines are compared after trimming), so no equality of source and target lengths is stated, because the code has none; `MovedText` says what follows from it.
- Checkpoint.UpdateAttributionsForCheckpoint: its outcome says of inserted text that nothing decides only that it has one known owner; which one, `Inheritance` says of the run behind the checkpoint.
- HunkDiffs.ComputeDiffs: the error returns exist in the code but are never taken; the model drops them where they are dead.
- The inside of the diff library and the minimality of its hunks.
- Byte offsets of multi-byte characters outside `Unattributed`, and the repair of offsets inside a character (`floor_char_boundary`, `ceil_char_boundary`): positions count characters. So do the size limits of the line-aligned fast path and of move detection, which the code applies to bytes; the two agree on ASCII text.
- LineOutcome.MakeEntryForFile: starts from attributions in which gaps are filled already, because filling them (`Unattributed`) counts bytes; the line statistics of the entry and its blob hash are not modelled.
- The 32-bit line numbers of line attributions are unbounded here; a text of more than 2^32 lines is not modelled.
- AuthorshipLog.RoundTrip: the JSON metadata is an opaque text; parsing it, the SHA-256 short hashes and the git notes lookups of `get_line_attribution` are not part of this model.
- AuthorshipLog.ParseAttestationSection: files and entries are values, since the parser owns one of each; `get_or_create_file` is not modelled. The panic on a lone quote is an error value, and `AuthorshipLog.ParsePanicsIff` says when it is returned.
- LineRanges.CompressLines: `end + 1` wraps in 32 bits as in a release build; a build with overflow checks stops at any element after u32::MAX, where no wrap to 0 is involved the result is the same.
- TokenRefresh.NoReplacedToken: the server is assumed to issue refresh tokens it has not issued before, and a refused or lost answer is assumed to replace nothing; other processes that refresh through the same store are not modelled beyond logging in and out.
- HTTP, OAuth requests, credential storage backends, URL normalisation (a function parameter) and clocks (an action that advances time).
- Secrets.ExtractTokens: the floating-point test `is_random` is an arbitrary predicate.
- The diff of whole byte slices and its timing logs, the `Token.line` field that nothing reads, and the comparison traits of tokens.
- Agent plugins, commands, the dashboard, Axum routes, configuration and feature flags.
