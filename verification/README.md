# Verification of the shell vendored in the repository and of its session scripts

A Dafny 4.11 model of the algorithmic cores of the repository, with proofs of what they keep, undo and
promise. Each model follows the code branch by branch; code that updates state in place is modelled by
methods and classes proved against functions, and the laws are proved about those functions.
`dafny verify dfyconfig.toml` checks everything.

## What is modelled

**Incremental log sync** (`Sync.dfy`, `SyncProtocol.dfy`). A log is bytes, split into lines; rows of six
tables are upserted under keys of file, call and line number; a session row remembers mtime, size,
offset, line count and parser version. `SyncRuns` is a state machine in which writers append whole lines
between any two steps of a sync (decide, stat, read, commit or roll back), and files are rewritten or the
parser upgraded between syncs. A rewrite has to be noticed by the size or the time of the file before the
next sync decides: the code cannot notice others. Over every run a commit leaves the rows of a full
rebuild. A sync point inside a line breaks this, and `ResumeAgreesExactlyAtLineEnds` says that nothing
else does.

**Edit scripts** (`Hashline.dfy`, `HashlineLaws.dfy`, `Repeats.dfy`). The parser of three generations of
edit scripts is a state machine over classified lines, and hand-written lexers classify them. A script
written in the current grammar parses to what it was written from, whatever its payload looks like. The
search for repeated payload is proved to find the longest accepted run. Its documentation promises a
repeat whenever one of the asked length is half meaningful; the code only looks at runs that cannot be
continued, and the exact condition is proved.

**Shell arithmetic** (`Words.dfy`, `WordOperators.dfy`, `Arithmetic.dfy`, `ArithmeticLaws.dfy`). The
recursive evaluator threads an environment and evaluates the text of variables; how a text is parsed, and
how the environment is read and written, is a table of uninterpreted functions. It is equivalent to a
big-step semantics without a limit, restricted to derivations nested no deeper than 1024 dereferences.
The operators work on 64-bit words, with wrap-around written out and characterised bit by bit.

**getopts** (`Decimal.dfy`, `Getopts.dfy`, `GetoptsLaws.dfy`). The resumable option parser keeps its state
in shell variables, as decimal texts. Repeated calls refine a one-shot recursive parse (the `getopts`
utility in Shell and Utilities of POSIX.1-2017), from any state of the variables, stale ones included.
A restart by OPTIND=1 is missed while the first argument is begun and not finished, and only then.

**Changelog fixer** (`Changelog*.dfy`). Parsing, promotion of items, normalising and rendering, on text.
The promotion walks a list by index while a section may be put in front of it; it is proved equal to two
separate passes. Fixing is idempotent, loses no line and delivers each promoted item under its title. The diff
reader's greedy pairing is a maximum matching, and what it returns are lines of added items in the new
files.
`ChangelogLines` to `ChangelogShape` are generic in the type of the text, `ChangelogText` and `Changelog`
bring in strings.

**Reads of files** (`Intervals.dfy`, `ReadReplay.dfy`, `ReadReplayLaws.dfy`, `ReadWindows.dfy`,
`FollowUps.dfy`). Three interval-set implementations agree with plain sets of integers. The two-phase
replay delivers every observed line and charges each missing one once. The other replay skips only calls
that are answered already. The analysis of later reads counts lines; ranges that end before they start
are accepted and can spoil its numbers, and for each number the exact condition is proved.

**Input of the shell** (`FieldSplitting.dfy`, `ReadLine.dfy`). Splitting by IFS with a limit follows the
rules in the comment at crates/brush-builtins-vendored/src/read.rs:674-686. Where white space touches
another delimiter these give an empty field that section 2.6.5 of Shell and Utilities in POSIX.1-2017 does
not. The line reader's limit counts bytes although its comment says characters.

**Sampling** (`Reservoir.dfy`). Reservoir sampling is uniform by counting draws: for single positions and
for whole samples.

**Complete prefixes of edits** (`EditBoundary.dfy`). The scanners that cut a text after its last complete
edit. The boundary is a fixed point and monotone. The older grammar calls a function,
`range_deleted_lines`, that the file does not define: deletions and replacements with an equals sign raise
an exception, and `RaisesExactly` says when.

**Call stack** (`CallStack.dfy`) and **brace expansion** (`BraceExpansion.dfy`). Positions compose to true
positions, counters count frames, balanced runs restore the state, and the set of active signals is
right exactly as long as no step forgets one. Expansion is a homomorphism from lists of pieces to ordered
products.

## Model

| member | source | states |
|---|---|---|
| LogLines.ResumedLines | scripts/session-stats/sync.py:680-717 | reading on from a stored offset gives, after the lines read before, exactly the lines of the whole file if and only if the file still begins with the bytes read before and these end where a line ends, or are all of it |
| LogLines.FragmentJoins | scripts/session-stats/sync.py:686-695 | a sync point inside a line costs one line: the fragment and what is appended to it are one line of the file but are read as two |
| SessionRows.CallsPastResults | scripts/session-stats/sync.py:960-983 | the upserts of call columns and of result columns commute, so an edit row is the same whichever of call and result comes first, in one batch or in two |
| SessionRows.StoreAppend | scripts/session-stats/sync.py:929-994 | storing two batches of rows in turn leaves every table as storing them as one batch |
| SessionRows.ResumeIsRebuild | scripts/session-stats/sync.py:648-732 | adding the rows of later lines, numbered on from the earlier ones, to the rows of the earlier lines gives the rows of a full rebuild of all the lines |
| SyncSteps.ParseFile | scripts/session-stats/sync.py:680-732 | the reading loop yields the records of all lines from the offset on, the new offset and the new line count; an offset beyond the end stays |
| SyncSteps.PutCallRows | scripts/session-stats/sync.py:960-972 | upserting stub rows changes the call columns and the version and keeps the result columns; other files keep their rows |
| SyncSteps.PutResultRows | scripts/session-stats/sync.py:973-983 | upserting results changes the result columns and the version and keeps the call columns; other files keep their rows |
| SyncSteps.StoreRecords | scripts/session-stats/sync.py:929-994 | the statements of one batch leave the rows of the file at the stored batch and those of every other file as they were |
| SyncSteps.DeleteFile | scripts/session-stats/sync.py:921-927 | a rebuild first removes all rows of the file and none of another file |
| SyncSteps.Database.WriteRecords | scripts/session-stats/sync.py:916-1032 | rows and session row change together when the transaction commits, and not at all when it rolls back |
| SyncSteps.Database.SyncFile | scripts/session-stats/sync.py:1048-1073 | a sync of a file at rest skips, resumes or rebuilds as decided, and touches no other file |
| SyncRuns.StepKeepsInv | scripts/session-stats/sync.py:1048-1073 | appends of whole lines at any moment, rewrites, upgrades, and each step of a sync keep the cache equal to a rebuild of the content it was last synced with |
| SyncRuns.CacheAgreesWithSource | scripts/session-stats/sync.py:648-1073 | over every run each commit leaves the rows of a full rebuild of what was read, and a file is skipped only when its rows already are those of a full rebuild |
| SyncRuns.ResumeAgreesExactlyAtLineEnds | scripts/session-stats/sync.py:682-695 | resuming agrees with a full rebuild for every way of decoding lines if and only if the synced bytes are still the beginning of the file and end where a line ends, or are all of it |
| Repeats.RunIsLongest | scripts/session-stats/sync.py:511-513 | the run compared line by line is the longest: a repeat from the two places has n lines exactly when n is no more |
| Repeats.FindLongestRepeat | scripts/session-stats/sync.py:502-521 | the answer is the first of the longest runs that are long and meaningful enough, over all pairs of places; no answer means there is none |
| Repeats.FindsWholeRepeats | scripts/session-stats/sync.py:503-504 | a repeat is found if and only if some repeat that is long and meaningful enough cannot be continued by a further equal line |
| Repeats.FindsWhatRepeats | scripts/session-stats/sync.py:503-504 | when every line is meaningful, one is found exactly when two lines or more, and as many as asked for, are repeated |
| Repeats.LongTailIsMissed | scripts/session-stats/sync.py:503-518 | a repeat of four lines, half of them meaningful, is missed because a fifth equal line makes less than half of the run meaningful |
| HashlineParser.ParseLines | scripts/session-stats/sync.py:334-499 | the loop over lines equals the state machine over sections, grammars and open payload blocks, whatever the lines are |
| HashlineParser.TouchAllBounds | scripts/session-stats/sync.py:310-312 | touching lines leaves the least and the greatest of all lines touched, and nothing else changed |
| HashlineParser.WrittenScriptReadsBack | scripts/session-stats/sync.py:334-414 | headers, verb ops and payload rows, between envelope markers or not, are read as sections with exactly the targets, blocks, anchors, deleted counts, op counts and line bounds written |
| HashlineLaws.RowReadsBack | scripts/session-stats/sync.py:410-414 | a line that starts with a plus sign is a payload row and neither header, envelope marker nor op, whatever follows the sign |
| HashlineLaws.RangeReads | scripts/session-stats/sync.py:253-254 | a written line range is read as its two numbers, whether it is one line alone or two separated by dots, a dash or an ellipsis, with or without a colon |
| HashlineLaws.OpReadsBack | scripts/session-stats/sync.py:252-257 | a written replace, delete or insert op is read as that op, its anchors, lines and deleted count, in every form of its range and with or without the optional colon |
| HashlineLaws.HeaderReadsBack | scripts/session-stats/sync.py:248-250 | a written header is read as a header with that target, with or without a tag |
| HashlineLaws.InputReadsBack | scripts/session-stats/sync.py:334-335 | joined lines are split into the same lines, when none has a newline in it or a carriage return at its end |
| HashlineLaws.ParseHashlineInput | scripts/session-stats/sync.py:323-499 | parsing a text is splitting it, dropping carriage returns at line ends, classifying the lines and running the state machine |
| HashlineLaws.PayloadNeverChangesStructure | scripts/session-stats/sync.py:323-499 | the text of any script of the verb grammar parses to the targets, payload, anchors, counts and bounds it was written from, even if rows look like ops, headers or envelope markers |
| Words.WrapIsCongruent | crates/brush-core-vendored/src/arithmetic.rs:296-313 | the wrapped value is the one signed word congruent to the true one modulo 2^64 |
| Words.WrappingPow | crates/brush-core-vendored/src/arithmetic.rs:408-421 | the squaring loop computes the signed representative of the true power modulo 2^64, for every base and exponent |
| WordOperators.TruncLaw | crates/brush-core-vendored/src/arithmetic.rs:297-310 | quotient and remainder recompose the dividend and the remainder is shorter than the divisor |
| WordOperators.WrappingDivLaw | crates/brush-core-vendored/src/arithmetic.rs:301-308 | only the most negative word divided by -1 wraps, to itself |
| WordOperators.WordBits | crates/brush-core-vendored/src/arithmetic.rs:322-324 | every bit of and, or and exclusive or of two words, the sign included, is the boolean function of the operands' bits |
| WordOperators.ComplementFlips | crates/brush-core-vendored/src/arithmetic.rs:244 | the complement flips every bit |
| WordOperators.WrapKeepsBits | crates/brush-core-vendored/src/arithmetic.rs:296-314 | wrapping a number keeps its 64 low bits |
| WordOperators.WordShiftBits | crates/brush-core-vendored/src/arithmetic.rs:314 | a left shift of a word, wrapped, moves every bit up, drops those beyond 64 and fills with zeros |
| WordOperators.ShiftRightBits | crates/brush-core-vendored/src/arithmetic.rs:315 | a right shift moves every bit down and fills with the sign |
| Evaluator.Interpreter.EvalExpr | crates/brush-core-vendored/src/arithmetic.rs:133-175 | evaluation in place returns the value or error of the evaluation function and leaves its environment, after errors too; it terminates in every environment, by the depth left and the size of the expression |
| Evaluator.Interpreter.DerefTarget | crates/brush-core-vendored/src/arithmetic.rs:196-231 | reading a variable or element evaluates its parsed text, one level deeper unless it is a literal |
| Evaluator.Interpreter.ApplyBinaryOp | crates/brush-core-vendored/src/arithmetic.rs:249-328 | the logical operators evaluate the right operand only when the left one does not decide |
| Evaluator.Interpreter.ApplyUnaryAssignmentOp | crates/brush-core-vendored/src/arithmetic.rs:330-360 | increments and decrements store the new value and return the new or the old one |
| Evaluator.Interpreter.AssignTarget | crates/brush-core-vendored/src/arithmetic.rs:362-399 | an index expression is evaluated before the element is updated; a refused update is an error |
| DepthLimit.DepthOnlyCuts | crates/brush-core-vendored/src/arithmetic.rs:225-230 | any outcome but the limit error is the same value or error and the same environment at every smaller depth |
| DepthLimit.CycleHitsLimit | crates/brush-core-vendored/src/arithmetic.rs:225-228 | variables that refer to one another in a cycle always end in the limit error, with the environment as it was |
| DepthLimit.ChainFitsLimit | crates/brush-core-vendored/src/arithmetic.rs:215-230 | a chain of n variables ending in a literal has its value exactly when its n - 1 hops fit the limit, and else the limit error |
| BigStep.EvaluatorFindsDerivations | crates/brush-core-vendored/src/arithmetic.rs:133-399 | every derivation of a big-step semantics without a limit, nested no deeper than the limit leaves room for, is found |
| BigStep.ResultsAreDerived | crates/brush-core-vendored/src/arithmetic.rs:133-399 | every value returned has such a derivation, effects included |
| BigStep.EvaluatorIsBigStep | crates/brush-core-vendored/src/arithmetic.rs:133-399 | the values returned are exactly the derivations whose dereference nesting fits the limit |
| BigStep.BigStepDeterministic | crates/brush-core-vendored/src/arithmetic.rs:133-399 | the semantics without a limit is deterministic, however deep derivations nest |
| OptionSpecs.ParseOptionSpec | crates/brush-builtins-vendored/src/getopts.rs:55-82 | an option takes an argument exactly when a colon follows its first occurrence; only a leading colon asks for silent errors |
| OptionSpecs.DescriptionUnique | crates/brush-builtins-vendored/src/getopts.rs:51-54 | that description determines the parsed option string |
| Decimal.ReadsBack | crates/brush-builtins-vendored/src/getopts.rs:120-132 | a printed number reads back as itself exactly when it fits the type it is read into |
| Getopts.Shell.Execute | crates/brush-builtins-vendored/src/getopts.rs:102-155 | one call changes the shell variables as one step of the resumable parser, with status 0 exactly when an option was found; an invalid variable name changes nothing |
| Getopts.Shell.NextOption | crates/brush-builtins-vendored/src/getopts.rs:163-270 | finding the next option yields the value, argument and index of the step, and saves or removes the position inside a cluster |
| GetoptsLaws.OptindReadBack | crates/brush-builtins-vendored/src/getopts.rs:119-124 | a stored OPTIND is read back as itself, or as 1 when it does not fit 32 bits |
| GetoptsLaws.CallDelivers | crates/brush-builtins-vendored/src/getopts.rs:163-307 | from any state a call reports the first event of what remains and leaves the rest, with OPTIND between 1 and one past the arguments, a saved position, if any, inside the argument at OPTIND, and the measure (arguments left, letters left) smaller; or, when nothing remains, stops at the first operand |
| GetoptsLaws.CallsDeliverInOrder | crates/brush-builtins-vendored/src/getopts.rs:102-155 | after n calls the first n events have been reported in order and the others remain |
| GetoptsLaws.CallsAreOneShot | crates/brush-builtins-vendored/src/getopts.rs:102-378 | from any state repeated calls report exactly the events of the one-shot parse of what remains, then stop with OPTIND at the first operand |
| GetoptsLaws.FreshStartParsesEverything | crates/brush-builtins-vendored/src/getopts.rs:126-138 | from OPTIND=1 with no saved position in the first argument, what remains is the one-shot parse of all arguments |
| GetoptsLaws.RestartIsNoticed | crates/brush-builtins-vendored/src/getopts.rs:126-135 | setting OPTIND to 1 makes the one-shot parse of all arguments what remains if and only if the last call did not leave OPTIND at 1 inside the first argument, for any saved position with no letter before it that takes an argument |
| GetoptsLaws.RestartAfterCalls | crates/brush-builtins-vendored/src/getopts.rs:102-155 | restarting after one or more calls from a fresh start parses everything again if and only if these calls were at least as many as the first argument has events |
| GetoptsLaws.RestartInsideFirstCluster | crates/brush-builtins-vendored/src/getopts.rs:126-135 | in the middle of the first cluster a restart goes unnoticed: the second letter comes again, not the first |
| ChangelogLines.TrimBlankLines | scripts/fix-changelogs.ts:191-197 | the loop with two indices takes off exactly the blank lines at both ends |
| ChangelogLines.TrimLinesUnique | scripts/fix-changelogs.ts:191-197 | lines without blank ends, put between blank ones, are what trimming gives back |
| ChangelogText.KindsExclude | scripts/fix-changelogs.ts:89-108 | no line is two of release heading, subsection heading, list item and blank |
| ChangelogText.HeadingReadsBack | scripts/fix-changelogs.ts:102-104 | the heading written for a title is read as a subsection heading with that title |
| ChangelogText.SplitJoin | scripts/fix-changelogs.ts:114-120 | lines joined by newlines are split into the same lines |
| ChangelogText.WrittenLinesReadBack | scripts/fix-changelogs.ts:114-120 | a written text is read as the lines it was written from, classification included |
| ChangelogDocument.ParseDocument | scripts/fix-changelogs.ts:126-155 | the index-driven loops split the lines into prefix and release sections, losing and moving none |
| ChangelogDocument.ParseSectionBody | scripts/fix-changelogs.ts:157-189 | the loops split a section into leading lines and subsections |
| ChangelogNormalize.NormalizeSection | scripts/fix-changelogs.ts:302-340 | dropping, merging, sorting and the two counters are those of the merge specification |
| ChangelogNormalize.SortKeeps | scripts/fix-changelogs.ts:333-335 | the stable sort permutes |
| ChangelogNormalize.NormalizedIsNormal | scripts/fix-changelogs.ts:302-340 | a normalised section has distinct titles over trimmed non-empty lines, in title order when unreleased |
| ChangelogNormalize.NormalStays | scripts/fix-changelogs.ts:302-340 | a section that is normal but for line numbers and blank ends normalises to itself with zero counters |
| ChangelogRender.RenderLines | scripts/fix-changelogs.ts:342-369 | the rendering loops write prefix, headings and blocks with single blank lines and none at the end |
| ChangelogRoundTrip.SectionsReadBack | scripts/fix-changelogs.ts:126-189 | written sections are read back with the same headings, titles and trimmed blocks |
| ChangelogRoundTrip.DocumentReadsBack | scripts/fix-changelogs.ts:342-369 | reading a rendered document recovers its prefix, headings, titles and blocks up to blank ends |
| ChangelogItems.ParseItems | scripts/fix-changelogs.ts:223-253 | the loop groups each list item with the lines up to the next one |
| ChangelogItems.LineRangeSet | scripts/fix-changelogs.ts:255-263 | the set holds exactly the line numbers of the items' ranges |
| ChangelogItems.FilterIsRemaining | scripts/fix-changelogs.ts:383-387 | filtering by line numbers removes exactly the lines of the promotable items, for consecutively numbered lines |
| ChangelogItems.StayingAndLeaving | scripts/fix-changelogs.ts:383-387 | no line is lost or doubled: each stays or leaves with its item |
| ChangelogItems.RemainingIsFinal | scripts/fix-changelogs.ts:379-398 | what remains has no promotable item, so a section met again gives nothing more |
| ChangelogPromotion.Promotion.AddToTarget | scripts/fix-changelogs.ts:389-396 | items go to the last subsection with the title in the first unreleased section, made when missing, unless already there; all are counted |
| ChangelogPromotion.Promotion.VisitSection | scripts/fix-changelogs.ts:379-398 | one pass over a released section strips it and deposits its items, and tells where the section now is |
| ChangelogPromotion.Promotion.Run | scripts/fix-changelogs.ts:379-398 | walking the list while a section is put in front of it equals two separate passes, strip all then deposit all; every promotable item is counted once |
| ChangelogContent.NormalizingKeepsLines | scripts/fix-changelogs.ts:302-340 | normalising keeps, title by title, the sequence of non-blank lines |
| ChangelogContent.PlaceExtends | scripts/fix-changelogs.ts:207-221 | whatever is deposited comes after all that the unreleased section said under each title |
| ChangelogDelivery.AppendItem | scripts/fix-changelogs.ts:207-221 | appending an item adds exactly that item to the items of the subsection |
| ChangelogDelivery.PromotedIsDelivered | scripts/fix-changelogs.ts:379-398 | after promotion every promotable item of a released section is an item under its own title in the unreleased one |
| ChangelogDelivery.NormalizingFinds | scripts/fix-changelogs.ts:302-340 | a delivered item survives normalising, whole, under the one subsection with its title |
| ChangelogFix.FixDocument | scripts/fix-changelogs.ts:371-423 | parsing, promoting and normalising in place yield the specified document and counters |
| ChangelogFix.WrittenStays | scripts/fix-changelogs.ts:371-423 | the lines a run writes are left alone by a run with no promotable lines |
| ChangelogFix.PromotedItemArrives | scripts/fix-changelogs.ts:379-406 | in the fixed document every promotable item stands under its title in the first unreleased section |
| ChangelogFix.PromotableChanges | scripts/fix-changelogs.ts:389-415 | an item to promote is always counted, so the text is written anew |
| Changelog.ReleasedTextKeepsTheRest | scripts/fix-changelogs.ts:371-423 | for any text, on reading the fixed text again, every released section keeps its heading and leading lines and, title by title, its non-blank lines without those of promoted items |
| ChangelogFix.ReleasedKeepsTheRest | scripts/fix-changelogs.ts:379-406 | so it does in the fixed document |
| Changelog.UnreleasedTextKeepsItsLines | scripts/fix-changelogs.ts:371-423 | for any text, on reading the fixed text again, what the unreleased section said under a title stays, in order, ahead of what was promoted to it |
| ChangelogFix.UnreleasedKeepsItsLines | scripts/fix-changelogs.ts:379-406 | so it does in the fixed document |
| Changelog.FixChangelogContent | scripts/fix-changelogs.ts:371-423 | the text-level fixer returns the specified text and counters |
| Changelog.FixIsIdempotent | scripts/fix-changelogs.ts:371-423 | fixing the result of fixing any text, with no promotable lines, returns it unchanged with zero counters |
| Changelog.PromotedItemIsListed | scripts/fix-changelogs.ts:371-423 | for any text, each promotable item of a released section is found, on reading the fixed text again, under the same title in Unreleased |
| DiffPairing.Pair | scripts/fix-changelogs.ts:499-517 | the pairing loop pairs, of each kind, the first additions with the first removals, as many of one as of the other |
| DiffPairing.PairsAreMinimum | scripts/fix-changelogs.ts:510-517 | of each kind exactly the smaller number of additions and removals are paired |
| DiffPairing.GreedyIsMaximum | scripts/fix-changelogs.ts:510-517 | no other pairing of equal entries pairs more additions of any kind |
| DiffPairing.CountUnpaired | scripts/fix-changelogs.ts:519-524 | the map counts the unpaired removals of each hunk |
| DiffPairing.ReturnedIsExcess | scripts/fix-changelogs.ts:527-534 | each hunk returns exactly as many lines as its unpaired additions exceed its unpaired removals by |
| DiffPairing.LastAreReturned | scripts/fix-changelogs.ts:527-534 | the lines returned are the last unpaired ones of the hunk |
| DiffPairing.CollectLines | scripts/fix-changelogs.ts:526-542 | the loop that uses up the counters collects those lines, by path |
| DiffScan.ReadDiff | scripts/fix-changelogs.ts:441-497 | the loop over diff lines collects the added and removed list lines with path, hunk and line number |
| DiffScan.FileScan | scripts/fix-changelogs.ts:441-497 | a well-formed file part is read as exactly the list lines its hunks add and remove, in order |
| DiffScan.NumbersAreRight | scripts/fix-changelogs.ts:453-477 | when the hunks fit the new file, each added list line is numbered where the new file has that line |
| DiffReader.ChangeReadsBack | scripts/fix-changelogs.ts:441-495 | a written change line reads back as itself if and only if it is not an addition of a text that starts with "++ b/" |
| DiffReader.PairAndCollect | scripts/fix-changelogs.ts:499-544 | pairing and collecting together return, per path, the promotable lines of the specification |
| DiffReader.CollectPromotableAddedItemLines | scripts/fix-changelogs.ts:433-545 | reading a diff text returns for each path the lines left over after pairing and setting off |
| DiffLaws.FilesScan | scripts/fix-changelogs.ts:441-497 | a diff of several files is read as exactly what all of them add and remove, in order |
| DiffLaws.NumbersAreAddedItems | scripts/fix-changelogs.ts:433-545 | for a well-formed diff that fits the new files, every number returned for a path is the line of a list item in that file, whose very text the diff adds at that line |
| Intervals.Merge | scripts/session-stats/optimize_read_config.py:146-157 | sorting and folding touching neighbours computes the merged list |
| Intervals.SortKeeps | scripts/session-stats/optimize_read_config.py:149 | sorting permutes and orders |
| Intervals.MergedCovers | scripts/session-stats/analyze_selector_reads.py:111-123 | merging changes no line, whatever the intervals, and makes lists of non-empty ones sorted and non-touching |
| Intervals.NormalIsUnique | scripts/session-stats/analyze_selector_reads.py:111-123 | two sorted, non-touching lists with the same lines are the same list |
| Intervals.AddInterval | scripts/session-stats/read_optimizer.py:261-278 | the loop computes the insertion with absorption |
| Intervals.AddCovers | scripts/session-stats/read_optimizer.py:261-278 | adding an interval adds its lines and no others |
| Intervals.AddIsMerge | scripts/session-stats/read_optimizer.py:261-278 | adding an interval to a normal list is merging the extended list from scratch |
| Intervals.IsCovered | scripts/session-stats/read_optimizer.py:251-258 | the scan with early exit decides whether every line of the target is covered, even if empty intervals stand in the list |
| Intervals.Contained | scripts/session-stats/optimize_read_config.py:160-164 | the scan decides whether some interval holds the target |
| Intervals.ContainedIsCovered | scripts/session-stats/optimize_read_config.py:160-164 | on a sorted list without touching intervals that is the same as every line being covered |
| Intervals.Subtract | scripts/session-stats/optimize_read_config.py:167-183 | the loop with early exit cuts every interval out |
| Intervals.SubtractCovers | scripts/session-stats/optimize_read_config.py:167-183 | what is left holds exactly the lines of the first and of none of the others, whatever the intervals |
| Intervals.SubtractIsDisjoint | scripts/session-stats/optimize_read_config.py:167-183 | what is left of one range is in order, disjoint and inside it |
| Intervals.SizeCountsLines | scripts/session-stats/analyze_selector_reads.py:207 | the summed lengths of disjoint intervals are the number of distinct lines |
| ReadReplay.EffectiveReturned | scripts/session-stats/optimize_read_config.py:315-343 | a range comes back for every kind of read but one without line bounds, and is never empty |
| ReadReplay.ChunksSplit | scripts/session-stats/optimize_read_config.py:357-368 | the chunks hold every line of the range once, in order, and none is longer than the cap |
| ReadReplay.ChunksAreFewest | scripts/session-stats/optimize_read_config.py:357-368 | there are as many as the length divided by the cap, rounded up |
| ReadReplay.ReplayPair | scripts/session-stats/optimize_read_config.py:371-415 | the two loops return the cost and calls of the two phases |
| ReadReplayLaws.PhaseOneCovers | scripts/session-stats/optimize_read_config.py:389-402 | phase one covers what the calls return, stays normal, and charges no call that brings nothing new |
| ReadReplayLaws.GapsAreMissing | scripts/session-stats/optimize_read_config.py:404-407 | the gaps are disjoint and hold exactly the needed lines that are not covered |
| ReadReplayLaws.ChunksAreGaps | scripts/session-stats/optimize_read_config.py:408-414 | the chunks of all gaps are disjoint and hold exactly the lines of the gaps |
| ReadReplayLaws.ReplayDelivers | scripts/session-stats/optimize_read_config.py:371-415 | after a replay the coverage is what phase one returns together with every observed line |
| ReadReplayLaws.ReplayCharges | scripts/session-stats/optimize_read_config.py:408-415 | phase two charges every missing line once, no delivered line, and one overhead a chunk |
| ReadWindows.DeliversWhatFits | scripts/session-stats/read_optimizer.py:221-248 | a call gets every line it asks for if and only if it starts at line 1 or later and the cap reaches its last line |
| ReadWindows.EmptyOnlyAtZero | scripts/session-stats/read_optimizer.py:231-248 | a call comes back with no line if and only if it asks for line 0 alone and gets no context after it |
| ReadWindows.CutIsCounted | scripts/session-stats/read_optimizer.py:372-377 | an explicit call that is cut short is counted as truncated if and only if it starts at line 1 or later, or what it gets from line 0 on fills the cap |
| ReadWindows.CountedIsCut | scripts/session-stats/read_optimizer.py:372-377 | a call counted as truncated is cut short if and only if it starts at line 0 or its last line lies beyond the cap |
| ReadWindows.CountedButWhole | scripts/session-stats/read_optimizer.py:372-377 | a call that loses only context lines is counted as truncated although it gets all it asked for |
| ReadWindows.ReplayGroup | scripts/session-stats/read_optimizer.py:342-394 | the loop over a group pays the first call and skips a later one exactly when all it asks for is covered |
| ReadWindows.GroupIsTallied | scripts/session-stats/read_optimizer.py:342-394 | every call is paid or skipped, and the coverage is exactly what the paid calls delivered |
| ReadWindows.SkippedIsAnswered | scripts/session-stats/read_optimizer.py:364-370 | every line a skipped call asks for was delivered by a call paid before it |
| FollowUps.ClassifyIsPlace | scripts/session-stats/analyze_selector_reads.py:126-141 | for any two ranges, exactly when the comparison of bounds says what the lines say (apart when merging leaves two regions, else on which sides new lines come): always, if the first read does not end before it starts and the later one has lines; for a later read without lines and for a reversed first read by comparisons of their bounds |
| FollowUps.Analyze | scripts/session-stats/analyze_selector_reads.py:181-214 | only groups that start with a range count; the numbers are computed from the merged list of all ranges known, and each later range has its place counted |
| FollowUps.PlacesAreCounted | scripts/session-stats/analyze_selector_reads.py:200-204 | there are as many places as later ranges, and a place is among them exactly when one of these is classified so |
| FollowUps.MergedKeepsReversed | scripts/session-stats/analyze_selector_reads.py:111-123 | merging leaves a range that ends before it starts standing if and only if no earlier range comes up to it |
| FollowUps.MergedOwes | scripts/session-stats/analyze_selector_reads.py:111-123 | what merging leaves standing owes as many lines as the ranges that end before they start and that no earlier range comes up to |
| FollowUps.CoveredIsExact | scripts/session-stats/analyze_selector_reads.py:206-207 | for any ranges, the lengths of the merged list fall short of the number of lines covered by exactly what is owed, so not at all if and only if every range that ends more than a line before it starts is reached by one that starts before it |
| FollowUps.AnalysisCounts | scripts/session-stats/analyze_selector_reads.py:206-213 | for any ranges, covered lines are counted rightly if and only if every reversed range is reached, and gap lines, those between that no read brought, if and only if that is so or only one region is left |
| FollowUps.ExtraCounts | scripts/session-stats/analyze_selector_reads.py:206-214 | for any ranges, extra lines, those the first read did not bring, are counted short by what is owed beyond what the first read owes itself; rightly if and only if the two are the same or there are none |
| FollowUps.NothingExtra | scripts/session-stats/analyze_selector_reads.py:126-214 | for any ranges, no extra lines are counted exactly when every later read that has lines is classified as inside, if and only if they all are or more lines lie outside than are owed beyond what the first read owes |
| FollowUps.NothingExtraWhenReached | scripts/session-stats/analyze_selector_reads.py:126-214 | so it is whenever every reversed range is reached by one that starts before it, reversed first reads included |
| FollowUps.BackwardRangeMiscounts | scripts/session-stats/analyze_selector_reads.py:67-68 | a range that ends before it starts is accepted and can make the number of covered lines negative and that of gap lines too large |
| FollowUps.BackwardFirstReadMiscounts | scripts/session-stats/analyze_selector_reads.py:67-68 | a first read that ends before it starts makes the number of extra lines too large |
| FieldSplitting.SplitLineByIfs | crates/brush-builtins-vendored/src/read.rs:687-756 | the flag-driven loop equals a recursive split of the trimmed line |
| FieldSplitting.NoMoreThanTheLimit | crates/brush-builtins-vendored/src/read.rs:721-722 | a limit k of at least 1 gives at most k fields |
| FieldSplitting.OnlyTheLastDiffers | crates/brush-builtins-vendored/src/read.rs:724-745 | all fields before the last one allowed are those of the split without a limit |
| FieldSplitting.LastVariableGetsTheRest | crates/brush-builtins-vendored/src/read.rs:729-745 | a field that reaches the limit is a verbatim suffix of the trimmed line |
| FieldSplitting.FieldsAreContent | crates/brush-builtins-vendored/src/read.rs:674-680 | without a limit the fields together hold exactly the non-separator characters of the line, in order |
| FieldSplitting.AssignToVariables | crates/brush-builtins-vendored/src/read.rs:206-229 | fields are popped one for each variable, and what is left is joined into the last |
| FieldSplitting.NoFieldsAreJoined | crates/brush-builtins-vendored/src/read.rs:211-213 | with no more fields than variables, each variable gets one field or nothing |
| FieldSplitting.EachVariableGetsItsField | crates/brush-builtins-vendored/src/read.rs:196-269 | splitting for k variables and assigning never joins two fields: the i-th variable gets the i-th field |
| ReadLine.ReadLineWithReader | crates/brush-builtins-vendored/src/read.rs:469-565 | the event loop equals unescaping the input and cutting it where the limit is reached; after a cut the input not yet read yields exactly the rest of the line |
| ReadLine.LimitCountsBytes | crates/brush-builtins-vendored/src/read.rs:463-468 | the limit counts characters, as its comment says, if and only if all but the last are one byte each; else the line is shorter |
| ReadLine.WrittenLineReadsBack | crates/brush-builtins-vendored/src/read.rs:512-540 | a line with its unsafe characters escaped, and any others, reads back if and only if the delimiter is not in it |
| ReadLine.RawLineReadsBack | crates/brush-builtins-vendored/src/read.rs:542-554 | without escapes a line reads back if and only if it has no delimiter and no ignored control character in it |
| ReadLine.EscapedSeparatorsSeparate | crates/brush-builtins-vendored/src/read.rs:118-147 | escapes are gone before splitting: whichever of its characters are escaped, a line splits into the same fields |
| Reservoir.ReservoirSample.Add | scripts/tool_io.py:125-134 | adding appends, replaces one slot or drops the item, as the draw says, and counts what was seen |
| Reservoir.SampleReservoir | scripts/tool_io.py:282-286 | a run over a stream holds the sample determined by the draws; a size of zero or less holds nothing |
| Reservoir.SampleIsAtPositions | scripts/tool_io.py:125-134 | the sample holds min(size, seen) items, at distinct positions of the stream |
| ReservoirUniformity.ChosenArePositions | scripts/tool_io.py:125-134 | the positions counted over are those of the sample |
| ReservoirUniformity.OutcomesAreInRange | scripts/tool_io.py:132 | the outcomes counted over are exactly the sequences of draws the generator may return |
| ReservoirUniformity.EachPositionIsKeptEquallyOften | scripts/tool_io.py:125-134 | for a stream of n items each position is in the sample in exactly size/n of all outcomes |
| ReservoirUniformity.EverySampleIsEquallyLikely | scripts/tool_io.py:125-134 | every set of size positions is the sample in equally many outcomes, as many as the factorial of the number of draws |
| EditBoundary.ParseBoundary | scripts/session-stats/harmony_backtest.py:447-613 | the two scanning loops yield the boundary and sections of the step functions |
| EditBoundary.StepMovesOrKeeps | scripts/session-stats/harmony_backtest.py:473-600 | each line either moves the boundary to its end with nothing pending, or leaves boundary and content as they were |
| EditBoundary.ScanIsFixed | scripts/session-stats/harmony_backtest.py:455-600 | scanning what stands again gives the same boundary, targets, payload and deleted counts; the op count loses at most one insert that still waits for its payload |
| EditBoundary.DashesAreNoEdits | scripts/session-stats/harmony_backtest.py:605-606 | a text that starts with dashes has no section in the edit grammars, so the older one reads it |
| EditBoundary.BoundaryIsFixed | scripts/session-stats/harmony_backtest.py:447-613 | cutting the text at the boundary and looking again gives the same boundary, targets, payload and deleted counts, through the choice of grammar |
| EditBoundary.BoundaryOfPrefixIsNoLater | scripts/session-stats/harmony_backtest.py:447-613 | a line-aligned prefix never has a later boundary than the whole |
| EditBoundary.RaisesExactly | scripts/session-stats/harmony_backtest.py:373-390 | an exception is raised if and only if the older grammar is chosen and the lines hold, after a heading and with nothing before that ends the reading, a deletion or a replacement with an equals sign |
| EditBoundary.OneDeletionRaises | scripts/session-stats/harmony_backtest.py:373-379 | a heading and one deletion raise it |
| SourcePositions.ComposedIsTruePosition | crates/brush-core-vendored/src/callstack.rs:195-212 | the position of an offset in a text embedded at a position, composed with that position, is the offset's true index, line and column in the enclosing text |
| SourcePositions.ComposeIsAssociative | crates/brush-core-vendored/src/callstack.rs:195-212 | composition is associative |
| SourcePositions.CurrentLineAgrees | crates/brush-core-vendored/src/callstack.rs:233-238 | the current line is the line of the composed position for every line offset, and missing when there is no position |
| SourcePositions.NestedComposes | crates/brush-core-vendored/src/callstack.rs:185-230 | a frame that starts at the current position of another reports the composition of all positions there are, with the line offsets of both frames added to the line |
| CallStacks.CallStack.PushFrame | crates/brush-core-vendored/src/callstack.rs:452-562 | a push is a step of a run: the stack stays what its history makes of the empty one, with the frame on top and counted as function, sourced script or active signal |
| CallStacks.CallStack.PopFrame | crates/brush-core-vendored/src/callstack.rs:388-404 | a pop returns the top frame, if any, and is a step of a run that takes it out of the counts |
| CallStacks.CallStack.SetCurrentPosition | crates/brush-core-vendored/src/callstack.rs:425-429 | setting a position is a step of a run that moves the top frame and nothing else |
| CallStacks.CallStack.IncrementLineOffset | crates/brush-core-vendored/src/callstack.rs:437-443 | so is adding to its line offset |
| CallStacks.CallStack.ClearActiveSignals | crates/brush-core-vendored/src/callstack.rs:614-616 | clearing the signals is a step of a run that leaves the frames alone |
| CallStacks.CallStack.IsInFunction | crates/brush-core-vendored/src/callstack.rs:638-640 | looking through the frames finds a function exactly when the counter is positive, after any calls of these methods |
| CallStacks.RunsAreCounted | crates/brush-core-vendored/src/callstack.rs:388-404 | over every run the counters equal the numbers of function and sourced frames, so the saturating subtraction never saturates |
| CallStacks.InFunctionIsCounted | crates/brush-core-vendored/src/callstack.rs:636-640 | after any run the shell is in a function exactly when the function counter is positive |
| CallStacks.TrackedExactly | crates/brush-core-vendored/src/callstack.rs:388-404 | all along a run the active signals are exactly those with a frame, as the comment on the query promises, if and only if no step clears the set while a signal has a frame and no pop removes one of two handlers of a signal |
| CallStacks.ActiveAreOnTheStack | crates/brush-core-vendored/src/callstack.rs:605-609 | so they are if the set is never cleared and no active signal is pushed again |
| CallStacks.PushedTwiceIsForgotten | crates/brush-core-vendored/src/callstack.rs:399-401 | without that they are not: a signal pushed twice is no longer active when one of its frames is gone |
| CallStacks.BalancedRestores | crates/brush-core-vendored/src/callstack.rs:388-562 | a balanced run restores counters, signals and all frames but the place of the top one |
| CallStacks.CallRestores | crates/brush-core-vendored/src/callstack.rs:388-562 | a whole call, whatever balanced run it holds, restores the state exactly |
| BraceExpansion.TermsAreCounted | crates/brush-core-vendored/src/braceexpansion.rs:39-51 | a number sequence has one term more than the distance divided by the step |
| BraceExpansion.TermsAreSpaced | crates/brush-core-vendored/src/braceexpansion.rs:39-51 | the terms start at the start, are one step apart and stay between the ends |
| BraceExpansion.CountDownIsExact | crates/brush-core-vendored/src/braceexpansion.rs:46-49 | counting down in signed words gives these terms if and only if one step below the last term is still a word |
| BraceExpansion.LargestStepOverflows | crates/brush-core-vendored/src/braceexpansion.rs:34-47 | the most negative increment always overflows on the way down |
| BraceExpansion.ExpandIsHomomorphic | crates/brush-core-vendored/src/braceexpansion.rs:4-16 | expanding one list of pieces followed by another is combining their expansions, and the counts multiply |
| BraceExpansion.ExpandInOrder | crates/brush-core-vendored/src/braceexpansion.rs:12-15 | the i-th expansion of the first with the j-th of the second stands at index i times the second count plus j |
| BraceExpansion.ExpansionsAreCounted | crates/brush-core-vendored/src/braceexpansion.rs:4-81 | the number of expansions is the product over pieces of the sum over members, however deeply nested |

## Left out

- SyncRuns.CacheAgreesWithSource: rewrites happen between syncs of the file and must be noticed by size or time before the next decision, and a file grows by whole lines; two syncs of one file at once are not modelled.
- SyncSteps.Database.SyncFile: the file is at rest between decision and commit here; `SyncRuns` covers appends in between.
- Session metadata, where earlier values are deliberately kept, and the columns that only describe the session; tokens counted, generated row ids and the tokenizer name.
- Decoding of JSON lines is an arbitrary function from a line and the parser version to what it says; missing files and read errors, which end the sync of a file without effect.
- Evaluator.Interpreter.EvalExpr: parsing, variable scopes, word expansion and tracing are not modelled; storing a number and printing it is one update of the environment.
- GetoptsLaws.RestartIsNoticed: a position that no call can have saved, beyond a letter that takes an argument, is excluded.
- Getopts.Shell.Execute: read-only variables, the messages on standard error and OPTERR are left out; numbers are decimal digits with an optional sign.
- GetoptsLaws.CallsAreOneShot: the target variable must not be one in which the builtin keeps its own state, and indices must fit the machine types they are stored in.
- Changelog.PromotedItemIsListed: the items of two subsections are compared as lists of lines, where the code compares joined strings.
- ChangelogPromotion.Promotion.Run: sections and subsections are values in a sequence, addressed by index, where the code holds references to them; lines that the code numbers 0 keep that number.
- ChangelogText.HeadingReadsBack: regular expressions and trimming are hand-written classifiers with the white space of ECMAScript; characters are code points.
- DiffReader.CollectPromotableAddedItemLines: a number of any length is read exactly, keys are pairs where the code joins two texts by a zero character, and the old line number, which nothing uses, is left out.
- The git commands, the changed-file summary and the command line of the changelog fixer.
- ReadReplay.ReplayPair: a cap of at least one line a call is assumed, since the code does not terminate without it on a gap; the byte cap is given as whole lines, and costs are real numbers.
- ReadWindows.ReplayGroup: only paid and skipped calls and the coverage; the token, byte and per-selector counters and the flag for groups answered by their first call are sums over the same loop. 
- FollowUps.Analyze: the number of reads of each kind and the kinds of first reads are left out.
- The parsing of selectors, reports, plots and the sweep over configurations.
- ReadLine.ReadLineWithReader: the reader below it, which turns bytes into characters and control-C and control-D into events, is a sequence of events; polling and terminal modes are left out. A line whose events run out has no result yet.
- FieldSplitting.AssignToVariables: array variables and the mode that does not split are left out.
- Reservoir.ReservoirSample.Add: the random generator is a parameter, one draw for each item.
- HashlineLaws.PayloadNeverChangesStructure: the verb grammar only; the two older grammars are modelled by the parser and the lexers but have no writer. Decimal digits of other scripts, which the legacy patterns accept, are not digits here.
- Repeats.FindLongestRepeat: which lines are meaningful is a parameter, where the code takes those of four characters or more once stripped; the listing of anchors used twice is left out.
- EditBoundary.BoundaryIsFixed: lines are given by what each regular expression says of them, boundaries in whole lines; the op count may lose one insert that waits for its payload, as `ScanIsFixed` says.
- The detection of leaked markers, the share of scripts around them and the boundary of a JSON text: cutting a text moves their windows.
- CallStacks.CallStack.PushFrame: one method for the family of push methods; arguments, sources and handlers of frames are not kept, nor is the count of blocks on trap delivery.
- BraceExpansion.ExpandIsHomomorphic: sequences of characters are left out; numbers are unbounded here, and `CountDownIsExact` says when the code's words give the same terms. Where a word overflows the model stops: a build that checks for overflow panics there, one that does not wraps around, and what it then yields is left out. A list of no pieces has one empty expansion.
