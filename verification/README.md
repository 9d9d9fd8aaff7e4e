# Verification of the benchmark harness and the roadmap tooling

Dafny models of the parts of mcpproxy-go whose correctness is an argument rather than a reading: the roadmap generator
and its archive sweep (`scripts/gen-roadmap.py`), the settings-parity scanners (`scripts/check-settings-parity.py`),
and the benchmark harness (`bench/`): exact token attribution, agent-loop accounting and its publication rules, ranking
metrics, the live tool listing, and two listing encoders. `dafny verify dfyconfig.toml` checks everything.

Code that works by changing things step by step is modelled that way (`CycleFinder`, `Repository`, `Decoder`,
`Emitter`, `Rendering`, `Census`, `RawRecordsRef`, the in-place sort, the in-place scanner, every accumulating loop) and
tied to a specification about which the theorems are proved.

| module | what it covers |
|---|---|
| `Roadmap`, `Cycles` | ids, duplicates, the three-colour cycle search |
| `RoadmapText`, `EpicBlocks`, `Prune`, `ArchiveSweep`, `ArchiveRuns` | the roadmap as tagged lines, what a file reads as, block tables, pruning, one sweep, any history of sweeps and crashes |
| `Comments`, `CommentPieces`, `CommentSyntax`, `SwiftFields` | the comment stripper, what it does to a file of code, literals and comments, how it differs from the languages it reads, and the call scanner of the parity gate |
| `Spans`, `ResponseGrammar`, `ResponseAccepts`, `ResponseWalk`, `Payload` | span partitions, token attribution, the response walk over a lexeme stream and the language it accepts, payload decomposition |
| `Intents`, `Verdicts`, `Trajectory`, `TrajectoryMessages` | attempts, the verdict on an intent, trajectories as events and as the messages they come from |
| `Aggregate`, `CellOrder`, `AgentLoopReport`, `CellRows`, `Savings` | cells, rows, the block, what a row says of the records, the saving |
| `Publication` | run status, input and record marks, the publication check |
| `Ranking` | nDCG, recall, reciprocal rank, average precision |
| `ToolsList`, `Tron`, `Compact` | paginated listing and its schema guard, the dictionary encoder, the signature encoder |

## Assumptions

Integers are unbounded and ratios are exact reals. A JSON text is a stream of lexemes with end offsets that do not
exceed the text; canonicalisation, hashing, tokenisation, discount weights, the remote server, `gh`, the file system and
the check on where an archive may be appended are arbitrary functions passed in. Text files are sequences of lines
tagged as epic start, banner, blank or other. `Parsed` records what the YAML parser and the line scan are required to
agree on before a sweep goes ahead, most of which the program checks itself (`scripts/gen-roadmap.py:1063-1079`); both
YAML files are mappings, and a non-empty list of epics that the line scan finds stands under a bare `epics:` key. The
surviving text and the new archive are taken to parse as they scan, one epic per epic start.

## What the code does that its documentation does not say

- After a crash between the archive write and the roadmap write, the comment at `scripts/gen-roadmap.py:1292-1295` calls
  the next sweep a no-op for the epics concerned. A sweep that gets past its earlier guards and chooses one of them is
  stopped as a whole: it raises when every epic is cold, is refused for the archive's shape when that cannot be appended
  to, and for repeated ids otherwise (`ArchivedChoiceStopsTheSweep`); with an epic left over and an appendable archive of
  distinct ids that is the only reason for which it does not write (`RefusedIffArchivedIsCold`), and the very run that
  crashed meets it when repeated (`RetryIsRefused`). The duplicates stay until removed by hand (`DuplicateStays`). No
  epic is lost.
- A sweep that chooses every epic dies of a `TypeError` and writes nothing: what is left under the bare `epics:` key
  parses as null, and `scripts/gen-roadmap.py:1264` iterates it. Past the earlier guards that happens exactly when every
  epic is cold (`RaisesIffAllCold`; `SweepingTheLastEpicRaises` is an input). A roadmap whose key is already empty dies
  the same way at `scripts/gen-roadmap.py:1074`.
- `strip_comments` looks for the end of a block comment from the opener's own asterisk on, so an opener followed at once
  by a slash passes for a whole comment; and it never nests comments, though Swift does. `StripsAsReference` says, for
  languages that nest and for those that do not, exactly when the text comes out as it should all the same;
  `GuardedTextIsStripped` gives a shorter guard that is enough, and `ShortCommentEscapes` and `NestedCommentEscapes` are
  inputs on which it does not (`NestedCommentIsNotMisread`: in the second only the nesting is in the way).
- nDCG, recall and average precision exceed 1 for some labelling of every ranking that repeats a tool, and only of
  those (`BoundedIffNoRepeats`, `RecallBoundedIffNoRepeats`, `PrecisionBoundedIffNoRepeats`).
- A trajectory whose calls have empty or repeated ids can be loaded as complete with an attempt left unknown
  (`CompleteIsTrustworthyIffAddressable`).
- `bench/mcptools.go:92-95` names server names containing the separator as the ones that are split wrongly. A server
  name ending in an underscore is split wrongly too (`ParseInvertsFormat`, `TrailingUnderscoreIsMisread`).
- A derived run status can fail its own validation: when cells are planned twice, or counted that were not planned
  (`DerivedStatusIsValid` gives the exact condition, `PlannedTwiceIsInvalid` an input).
- Resolving a record reference can also make an invalid one valid: an absent artifact clears the path, the count and
  the note together, which leaves only the claim of durability to object to (`RawRecordsRef.Resolve`).
- Three error messages cannot appear: "could not locate raw block(s)" (`ChosenHaveBlocks`), "post-sweep roadmap.yaml
  would contain" (`SurvivorIds`; the statement before it can raise, as above) and "tool renders to an empty definition"
  (`NeverEmpty`).

## Model

| member | source | states |
|---|---|---|
| Roadmap.DuplicateIds | scripts/gen-roadmap.py:216-231 | reports each repeated id once, in the order of the second occurrences; empty exactly when the ids are distinct |
| Roadmap.EdgesAreDeclared | scripts/gen-roadmap.py:243-256 | the edges of the graph are exactly the `depends_on` entries of the epics and of their tasks |
| Cycles.BuildGraph | scripts/gen-roadmap.py:243-256 | the adjacency map has exactly the declared dependency edges, and is closed under them |
| Cycles.CycleFinder.Visit | scripts/gen-roadmap.py:261-277 | terminates on the number of unvisited nodes, keeps the stack equal to the grey nodes in path order, finishes its node |
| Cycles.CycleFinder.ReportCycle | scripts/gen-roadmap.py:266-271 | a back edge yields a simple cycle whose last step is that edge |
| Cycles.FinishPositionFalls | scripts/gen-roadmap.py:261-277 | along steps that close no reported cycle the finishing position strictly falls |
| Cycles.EveryClosedWalkIsHit | scripts/gen-roadmap.py:261-277 | once all nodes have finished, every closed walk takes the closing step of a reported cycle |
| Cycles.FindCycles | scripts/gen-roadmap.py:243-277 | every reported list is a simple cycle of the declared dependencies, none is reported twice, every closed walk takes a reported closing step, and the report is empty exactly when the graph is acyclic |
| EpicBlocks.FindEpicBlocks | scripts/gen-roadmap.py:1044-1060 | one block per epic start, in order, trimmed to its last line that is neither blank nor banner |
| EpicBlocks.FileIsBlocks | scripts/gen-roadmap.py:1044-1060 | reading the file gives exactly one epic per block, in order |
| EpicBlocks.BlockReads | scripts/gen-roadmap.py:1044-1060 | the lines of a block alone read as that epic and nothing else |
| EpicBlocks.CutFileReads | scripts/gen-roadmap.py:1257-1259 | cutting the chosen blocks leaves the preamble and every other epic, content line for content line, in order |
| EpicBlocks.CutTakesEpicText | scripts/gen-roadmap.py:1257-1259 | the lines cut are exactly those of the chosen epics: from the start of one to the next start, less the blanks and banners before that |
| Prune.PruneEmptySections | scripts/gen-roadmap.py:1082-1107 | by position: a banner stays exactly when an epic starts before the next banner, a blank exactly when the line before is no spacer and a line that says something follows, everything else stays, in order; and the loops compute the specified text |
| Prune.PruneKeepsInPlace | scripts/gen-roadmap.py:1082-1107 | the specified text is the input without exactly those lines |
| Prune.BannersKeepTheirEpics | scripts/gen-roadmap.py:1082-1107 | an epic that starts under a banner still starts under that banner afterwards |
| Prune.PruneReads | scripts/gen-roadmap.py:1082-1107 | pruning changes no epic and no content line |
| Prune.PrunedIsTidy | scripts/gen-roadmap.py:1082-1107 | what is left has no dead banner and no double blank |
| Prune.PruneIsIdempotent | scripts/gen-roadmap.py:1082-1107 | pruning twice is pruning once |
| ArchiveSweep.StampIsIdempotent | scripts/gen-roadmap.py:1112-1122 | a second stamp, whatever its dates, changes nothing |
| ArchiveSweep.StampReads | scripts/gen-roadmap.py:1112-1122 | a stamped block reads as the epic with its two dates as the first lines under its head, or as it did when it was already stamped |
| ArchiveSweep.StampKeepsEndings | scripts/gen-roadmap.py:1112-1122 | a block with one kind of line ending keeps it |
| ArchiveSweep.PlanSweep | scripts/gen-roadmap.py:1159-1303 | every outcome of a sweep: the exceptions and refusals in order, nothing to do, the dry run, or two new texts: a roadmap that is the old one less the chosen epics' lines, tidied, and an archive that begins as the old one and holds each chosen epic's own lines, stamped |
| ArchiveSweep.OnlyColdEpicsMove | scripts/gen-roadmap.py:1207-1228 | an epic stays in the roadmap exactly when it is unfinished, kept, has an unfinished task, is blocked or was shipped too recently, and is in the archive afterwards exactly when it does not or was there before |
| ArchiveSweep.RaisesIffAllCold | scripts/gen-roadmap.py:1263-1265 | a sweep that gets as far as excising raises exactly when every epic is cold |
| ArchiveSweep.SweepingTheLastEpicRaises | scripts/gen-roadmap.py:1263-1265 | a roadmap of one cold epic is such an input |
| ArchiveSweep.SurvivorsRead | scripts/gen-roadmap.py:1257-1259 | the new roadmap reads as the old one without the chosen epics |
| ArchiveSweep.SurvivorIds | scripts/gen-roadmap.py:1265-1269 | the ids left in the text are the ids there were minus the chosen ones, so a comparison that is reached finds no difference |
| ArchiveSweep.ChosenHaveBlocks | scripts/gen-roadmap.py:1247-1255 | every chosen id has a block, so that abort is dead |
| ArchiveSweep.ArchiveIds | scripts/gen-roadmap.py:1282-1284 | the archive's ids afterwards are the old ones followed by the chosen ones |
| ArchiveRuns.Repository.Sweep | scripts/gen-roadmap.py:1292-1298 | the three files after any prefix of the three writes, archive first |
| ArchiveRuns.CrashLosesNothing | scripts/gen-roadmap.py:1292-1298 | after any prefix of the writes every epic is in one of the files word for word, and the archive has lost nothing |
| ArchiveRuns.CrashKeepsIds | scripts/gen-roadmap.py:1292-1298 | no id appears or disappears whatever the crash point |
| ArchiveRuns.CompletedSweepIsAMove | scripts/gen-roadmap.py:1292-1298 | once the roadmap is written, each moved epic is in the archive only |
| ArchiveRuns.CrashBetweenDuplicates | scripts/gen-roadmap.py:1292-1298 | a crash between the two writes leaves each moved epic in both files |
| ArchiveRuns.ArchivedIsNeverRewritten | scripts/gen-roadmap.py:1286-1290 | a sweep that selects an archived epic writes nothing |
| ArchiveRuns.ArchivedChoiceStopsTheSweep | scripts/gen-roadmap.py:1263-1290 | past the earlier guards, a sweep that chooses an archived epic raises, or is refused, by the first of the remaining guards that applies |
| ArchiveRuns.RefusedIffArchivedIsCold | scripts/gen-roadmap.py:1286-1290 | with an epic left over and an appendable archive of distinct ids, a sweep is refused for repeated ids exactly when it chooses an archived epic, and writes otherwise |
| ArchiveRuns.RetryIsRefused | scripts/gen-roadmap.py:1286-1298 | a sweep that died between its first two writes is refused when run again as it was |
| ArchiveRuns.HistoryLosesNothing | scripts/gen-roadmap.py:1159-1303 | over any sequence of sweeps and crashes no epic is lost or altered beyond its stamps |
| ArchiveRuns.HistoryKeepsIds | scripts/gen-roadmap.py:1159-1303 | over any such sequence the two files together hold the same ids |
| ArchiveRuns.ArchiveStaysDistinct | scripts/gen-roadmap.py:1286-1290 | the archive never comes to list an id twice |
| ArchiveRuns.RoadmapIsNeverEmptied | scripts/gen-roadmap.py:1159-1303 | over any such sequence a roadmap that has epics keeps at least one |
| ArchiveRuns.DuplicateStays | scripts/gen-roadmap.py:1286-1295 | an epic duplicated by a crash stays in both files through every later sweep |
| Comments.StripComments | scripts/check-settings-parity.py:60-100 | the in-place scan blanks exactly the characters its specification calls comment |
| Comments.StripChangesOnlyComments | scripts/check-settings-parity.py:60-100 | length, newlines, code and string literals are kept; other comment characters become spaces |
| Comments.StrippedScan | scripts/check-settings-parity.py:60-100 | scanning the output follows the scan of the input, literal for literal, with comments turned to code |
| Comments.StripIsIdempotent | scripts/check-settings-parity.py:60-100 | stripping twice is stripping once, for every text |
| CommentPieces.PiecesAreStripped | scripts/check-settings-parity.py:60-100 | a file of code, quoted literals with escapes, line comments and block comments comes out with exactly the comments blanked |
| CommentSyntax.ScansAsReference | scripts/check-settings-parity.py:84-99 | for comments that do not nest, the scanner finds the very same regions exactly when no opener is followed by a slash and then by something else than the end or a further opener |
| CommentSyntax.StripsAsReference | scripts/check-settings-parity.py:60-100 | nesting or not, the output is the text with the language's comments blanked exactly when nothing visible follows where scanner and language part until they agree again |
| CommentSyntax.GuardedTextIsStripped | scripts/check-settings-parity.py:60-100 | text without a misread opener, and without an opener inside a comment where comments nest, is stripped as the language reads it |
| CommentSyntax.ShortCommentEscapes | scripts/check-settings-parity.py:89-99 | an opener followed by a slash on which the output differs |
| CommentSyntax.NestedCommentEscapes | scripts/check-settings-parity.py:89-99 | a nested comment on which it differs |
| CommentSyntax.NestedCommentIsNotMisread | scripts/check-settings-parity.py:89-99 | in that text every opener is read right, so nesting alone is the cause |
| CommentSyntax.MisreadCanBeHarmless | scripts/check-settings-parity.py:89-99 | a misread opener after which the output is right all the same |
| SwiftFields.FindClose | scripts/check-settings-parity.py:202-233 | the loop stops at the parenthesis that closes the call, or at the end when there is none |
| SwiftFields.ClosesAfterArgument | scripts/check-settings-parity.py:206-233 | a call closes exactly at the first right parenthesis after a complete argument text |
| SwiftFields.ArgumentsAreBalanced | scripts/check-settings-parity.py:206-233 | the argument texts accepted are exactly those derived by a grammar of closed literals and balanced groups |
| SwiftFields.ConfigFieldBlocks | scripts/check-settings-parity.py:191-236 | the blocks of a text, the search resuming where the last call closed |
| SwiftFields.EveryCallIsRead | scripts/check-settings-parity.py:191-236 | in a file of calls and marker-free text between them, every call is found once, in order, with its exact argument text |
| Spans.ValidateSpanPartition | bench/respcost.go:241-263 | accepts exactly the partitions |
| Spans.ByteHasOneSpan | bench/respcost.go:241-263 | in a partition every byte has exactly one span |
| Spans.AttributeTokens | bench/respcost.go:205-237 | the single pass over tokens and spans gives each label the number of tokens whose first byte lies in one of its spans; it fails exactly on a bad partition or pieces that do not cover the text |
| Spans.CountsAreTokens | bench/respcost.go:205-237 | what is counted under a label is the set of tokens whose first byte lies in one of its spans |
| Spans.MergingLabelsAddsCounts | bench/respcost.go:205-237 | relabelling spans adds the counts of the labels merged |
| ResponseGrammar.CutIsPartition | bench/respcost.go:76-86 | requests that stay within the text and end at its end always cut a partition |
| ResponseGrammar.AcceptedIsPartitioned | bench/respcost.go:70-128 | whatever response is accepted, its spans partition it |
| ResponseGrammar.ByteBelongsToRequest | bench/respcost.go:76-86 | each byte carries the label of the first request that ends after it |
| ResponseGrammar.RoundTrip | bench/respcost.go:70-181 | every well-formed response, whatever follows it, is accepted with exactly the labels of its parts and the last tool count |
| ResponseAccepts.AcceptsExactlyResponses | bench/respcost.go:70-181 | a text is accepted exactly when it begins with a well-formed response and only blanks follow |
| ResponseWalk.WalkTools | bench/respcost.go:133-181 | the array walk emits exactly the grammar's requests and counts the tools |
| ResponseWalk.PartitionResponse | bench/respcost.go:70-128 | the imperative walk accepts and cuts exactly as the grammar does |
| ResponseWalk.MeasureResponse | bench/respcost.go:269-285 | an accepted response is never rejected for its spans; counts are naive and sum to the token total |
| Payload.LayoutIsPartition | bench/payloaddecomp.go:216-248 | parts laid end to end partition their rendering and each span holds exactly one part |
| Payload.PartitionToolDefinition | bench/payloaddecomp.go:216-248 | the rendering and the spans of a tool's four parts |
| Payload.PartsRender | bench/payloaddecomp.go:216-248 | a tool renders exactly when it has no schema or a canonical one, as its name, a newline, its description and, with a schema, a newline and the canonical schema; each part that is not empty has its own labelled span |
| Payload.NeverEmpty | bench/payloaddecomp.go:241-247 | a rendering is never empty |
| Payload.FourAddUp | bench/payloaddecomp.go:114-131 | the four components of a tool sum to its tokens |
| Payload.DecomposePayload | bench/payloaddecomp.go:98-150 | over the corpus the components sum to the total; it succeeds exactly when every tool can be measured |
| Intents.ClassifyIntents | bench/agentloop.go:439-479 | one verdict per intent, in order of first appearance, from its own attempts in sequence order |
| Verdicts.ClassifiedReads | bench/agentloop.go:439-479 | one verdict per intent in order of first appearance; of its attempts, ordered by sequence number and then position, a retry is an infrastructure one exactly when it repeats the arguments of one that failed in transport and corrective otherwise; indeterminate exactly when the first has no outcome of its own; a success exactly when a single attempt returned a result |
| Intents.SortIsStable | bench/agentloop.go:454-456 | the sort keeps equal sequence numbers in order of arrival |
| Intents.AttemptsConserved | bench/agentloop.go:439-479 | first attempts and retries over all intents are all the attempts |
| Intents.SuccessIffSingleOk | bench/agentloop.go:455-476 | first-attempt success is exactly a single attempt that returned a result |
| Intents.ListingOrderIsIrrelevant | bench/agentloop.go:439-479 | with distinct sequence numbers a verdict does not depend on the order of listing |
| Trajectory.LoadTrajectory | bench/agentloop.go:1229-1290 | loads, truncates or refuses as the event machine does, the first refused event giving the reason |
| TrajectoryMessages.LoadsAsMessages | bench/agentloop.go:1229-1321 | over the messages: refused at the first nameless call or unknown result, or when results were dropped, else one attempt per call, numbered within its tool; with addressable ids the last result for a call alone decides between result, error, infrastructure and, without one, unknown |
| Trajectory.OneAttemptPerCall | bench/agentloop.go:1248-1264 | one attempt per call, in order, numbered 1, 2, ... within each intent |
| Trajectory.TruncationIsExact | bench/agentloop.go:1278-1289 | with addressable calls, truncated exactly when an attempt is unknown, and every unknown one comes from the last issuing message |
| Trajectory.UnaddressedGoesUnnoticed | bench/agentloop.go:1261-1289 | a call with an empty or repeated id can stay unknown in a trajectory loaded as complete |
| Trajectory.CompleteIsTrustworthyIffAddressable | bench/agentloop.go:1261-1289 | for given call ids, loaded-as-complete implies nothing unknown exactly when they are non-empty and distinct |
| Aggregate.AggregateCell | bench/agentloop.go:724-818 | the loops compute the fold over runs in ascending index |
| Aggregate.CellConsistent | bench/agentloop.go:724-818 | in every state of the fold the three axes sum to the tokens, completed is at most eligible, and runs are counted exactly when something was eligible |
| CellOrder.OrderIsIrrelevant | bench/agentloop.go:724-818 | permuting the records never changes whether sources are mixed, and changes nothing else unless they are |
| CellOrder.CellIsSumOfRuns | bench/agentloop.go:724-818 | the counters of an unmixed cell are the sum of its records over the runs without a partial unit |
| CellOrder.MixedIffSourcesDisagree | bench/agentloop.go:778-789 | a cell is flagged exactly when two records that count name different sources |
| AgentLoopReport.RelativeSpreadPct | bench/agentloop.go:1030-1049 | the range of the values over their mean |
| AgentLoopReport.SpreadMeasuresAgreement | bench/agentloop.go:1030-1049 | over positive costs the spread is zero exactly when all are equal |
| AgentLoopReport.BlockFor | bench/agentloop.go:625-708 | one row per cell with the regression flag of the rule, or the first error of the input |
| CellRows.BlockReads | bench/agentloop.go:724-900 | each row, from its cell's records: retries and first-attempt figures sum the verdicts of the runs without a partial unit, tokens sum the usage of the judged ones, the rates, cost and spread in product form, and the exact conditions for withheld and headline; a cell with disagreeing sources shows no figure |
| CellRows.RegressionReads | bench/agentloop.go:676-707 | a row is a regression exactly when the baseline was measured and completed more by over the threshold, five points unless set |
| CellRows.ErrorsRead | bench/agentloop.go:555-668 | the exact input refused for each reason, first reason first, and that nothing else is |
| Savings.SavingVsBaseline | bench/agentloop.go:922-1008 | for any block, a saving is published exactly when both sides are comparable, unflagged and within the threshold |
| Savings.RuleReads | bench/agentloop.go:922-1008 | the rule on the rows: published exactly when the cell and the baseline are comparable, the cell is unflagged, has a cost and lies within the threshold; regressed exactly when flagged or beyond it |
| Savings.FlagAgreesWithRule | bench/agentloop.go:676-707 | in a block built from records the recomputed regression equals the row's flag wherever the comparison is reached |
| Savings.PooledCostIsBounded | bench/agentloop.go:806-816 | the pooled cost is at least the cheapest run's, and at most the dearest's when every counted run completed something |
| Savings.RowIgnoresOrder | bench/agentloop.go:625-708 | permuting all records leaves the final row of every unmixed cell unchanged, and every mixed one withheld |
| Publication.DeriveRunStatus | bench/reportv2.go:899-943 | complete exactly when every planned cell is accounted for and the run was not interrupted; a partial run has a reason |
| Publication.StatusHoldsUp | bench/reportv2.go:956-992 | a status is valid exactly when its counts add up, a shortfall is named, completeness is earned and a partial run has a reason |
| Publication.DerivedStatusIsValid | bench/reportv2.go:956-992 | the exact condition under which a derived status passes its validation |
| Publication.PlannedTwiceIsInvalid | bench/reportv2.go:956-992 | a cell planned twice and measured once is an input on which it does not pass |
| Publication.CleanRunsAreValid | bench/reportv2.go:956-992 | with cells planned once and measured or skipped at most once it does, and names exactly the gap |
| Publication.RawRecordsRef.Resolve | bench/reportv2.go:1116-1128 | a reference never keeps a path to an absent artifact, a valid one stays valid, and an invalid one becomes valid exactly when it is degraded and not marked durable |
| Publication.CheckBlock | bench/reportv2.go:1213-1247 | a block has no blocker exactly when its inputs and records are declared; its caveats are exactly private inputs and validly declared records that are not retained |
| Publication.PublicationCheck | bench/reportv2.go:1167-1261 | the blockers are exactly those that apply; publishable exactly when the status is valid and complete, every present block declares valid inputs and records, and one is reproducible; privately fed and untraceable blocks are marked either way |
| Publication.PublishableReads | bench/reportv2.go:1167-1261 | publishable, said of the report's own fields: complete and uninterrupted, every planned cell counted, inputs and records declared, and one block fed from the repository or a pinned procedure rather than a private recording |
| Publication.PublishedRunsFinished | bench/reportv2.go:1167-1261 | a publishable report with a derived status covers every planned cell |
| Publication.ResolveRecords | bench/reportv2.go:710-720 | writing a report keeps it publishable and leaves no dangling path |
| Ranking.SortDescending | bench/metrics.go:115-120 | the in-place insertion sort yields the descending arrangement |
| Ranking.DescendingIsUnique | bench/metrics.go:115-120 | which is the only one with those elements |
| Ranking.Ndcg | bench/metrics.go:86-103 | the score times the ideal DCG is the DCG, and it is 0 when there is nothing to gain within the cutoff |
| Ranking.DcgMoves | bench/metrics.go:86-103 | a grade at position i is worth disc(i) each, there and nowhere else, and no grade is worth nothing |
| Ranking.RelevanceIsFirstLabel | bench/metrics.go:32-39 | the first label that names a tool decides its relevance |
| Ranking.IdealIsPositiveIff | bench/metrics.go:105-128 | there is something to gain exactly when the cutoff admits a position and some label is relevant |
| Ranking.TopSum | bench/metrics.go:107-128 | no selection of relevances beats as many of the largest |
| Ranking.NdcgAtMostOne | bench/metrics.go:86-128 | for a ranking without repeats in its top k and any positive non-increasing discount, the score is at most 1 |
| Ranking.NdcgAtLeastZero | bench/metrics.go:86-128 | for non-negative relevances the score is non-negative |
| Ranking.FullScoreIffIdealOrder | bench/metrics.go:86-128 | under a strictly falling discount, with something to gain, the score is 1 exactly for the ideal order |
| Ranking.IdealReachedIff | bench/metrics.go:86-128 | whether or not there is something to gain, DCG equals the ideal exactly for the ideal order |
| Ranking.RecallAtK | bench/metrics.go:55-70 | recall times the number of relevant labels is the number of relevant positions within the cutoff |
| Ranking.BoundedIffNoRepeats | bench/metrics.go:86-128 | the score is at most 1 under every labelling exactly when the top k repeats nothing |
| Ranking.RecallGrows | bench/metrics.go:55-70 | recall never falls as k grows |
| Ranking.RecallAtMostOne | bench/metrics.go:55-70 | recall is at most 1 without repeats |
| Ranking.RecallBoundedIffNoRepeats | bench/metrics.go:55-70 | recall is at most 1 under every labelling exactly when the top k repeats nothing |
| Ranking.ReciprocalRank | bench/metrics.go:74-82 | the rank of the first relevant position times the result is 1; 0 exactly when none is relevant |
| Ranking.AveragePrecision | bench/metrics.go:134-148 | the score times the number of relevant labels is the sum of the precisions at the relevant positions |
| Ranking.PrecisionSteps | bench/metrics.go:141-147 | a relevant position adds the share of relevant ones up to and including it, an irrelevant one nothing |
| Ranking.AveragePrecisionAtMostOne | bench/metrics.go:134-148 | average precision is at most 1 without repeats |
| Ranking.PrecisionBoundedIffNoRepeats | bench/metrics.go:134-148 | average precision is at most 1 under every labelling exactly when the ranking repeats nothing |
| Ranking.PrecisionAndRankAgree | bench/metrics.go:74-148 | average precision is positive exactly when the reciprocal rank is |
| ToolsList.ReadPages | bench/mcptools.go:178-205 | at most 512 requests, no cursor twice, and the pages in order whenever the server has a complete listing |
| ToolsList.PagesAreListedInOrder | bench/mcptools.go:178-205 | each tool of each page has its place in the listing, after all the pages before it |
| ToolsList.StuckIsFinal | bench/mcptools.go:178-205 | when the loop gives up, the server has no complete listing within the limits |
| ToolsList.ParseInvertsFormat | internal/server/mcp_routing.go:67-78 | parsing undoes formatting exactly when both names are non-empty and the server's neither contains the separator nor ends in an underscore |
| ToolsList.TrailingUnderscoreIsMisread | internal/server/mcp_routing.go:67-78 | the tool `t` of server `a_` is read as `_t` of `a` |
| ToolsList.RenderedIsReadBack | bench/mcptools.go:242-285 | under the same condition, and no other, a rendered upstream tool is read back as itself with its schema normalised |
| ToolsList.EntryReads | bench/mcptools.go:242-290 | what any entry is read as: server and tool where the name splits, else a built-in tool; the description less its server prefix; the canonical schema unless it says nothing |
| ToolsList.Census.Add | bench/mcptools.go:296-317 | the counters stay the counts of the population |
| ToolsList.GuardSchemas | bench/mcptools.go:345-404 | passes exactly when every population present has a tool whose schema declares at least one property; otherwise names the first that has none, with its counts |
| ToolsList.PlaceholdersAreRefused | bench/mcptools.go:296-404 | a listing whose every schema is the deferred placeholder is never admitted |
| ToolsList.FetchToolsList | bench/mcptools.go:173-231 | returns the whole listing in order exactly when the server has a complete one that maps to distinct ids with priceable schemas; each population in it has a real schema, and each error says what stood in the way |
| ToolsList.FleetFromToolsList | bench/mcptools.go:418-440 | a fleet is the upstream tools, never none, and one of them declares a property |
| Tron.EncodeListing | bench/arms/tron.go:109-146 | one class per distinct canonical schema in first-appearance order; with canonicalisable schemas it fails exactly on a clash of class names |
| Tron.ListingIsLossless | bench/arms/tron.go:109-146 | resolving every reference gives back each tool's name, description and canonical schema, for any hash |
| Tron.PreambleIsMinimal | bench/arms/tron.go:138-145 | the preamble repeats no name and no body, defines nothing unused, names each body by its class and keeps the order of first appearance |
| Tron.IndexNamesADefinedClass | bench/arms/tron.go:154-168 | the index names a class that the listing defines as the tool's own schema |
| Compact.CompactUnion | bench/arms/compact.go:105-125 | the loop renders the members its specification lists |
| Compact.UnionKeepsFirsts | bench/arms/compact.go:105-125 | a union renders the types it names once each, in the order of first mention |
| Compact.NullsAreInvisible | bench/arms/compact.go:108-110 | null and empty alternatives never change what is rendered |
| Compact.TypeTextTells | bench/arms/compact.go:74-125 | taken apart at its bars, a rendered type names exactly the types its schema names, once each, under the short names of the table; it is "any" exactly when the deciding source names no known type |
| Compact.CompactType | bench/arms/compact.go:74-101 | the text produced tells the schema's types in that sense |
| Compact.CompactParams | bench/arms/compact.go:134-174 | for any iteration order: declared required names in array order, then the rest strictly sorted |
| Compact.SignatureCoversSchema | bench/arms/compact.go:147-173 | every declared property exactly once, bare exactly when required, all bare ones first |
| Compact.SignatureOrder | bench/arms/compact.go:134-174 | bare names keep the order of the required array, optional ones are strictly sorted, and each parameter tells its property's types |
| Compact.LessIsLexicographic | bench/arms/compact.go:166-168 | the order is lexicographic: the first differing character decides, a proper prefix comes first |
| Compact.SignatureIsUnique | bench/arms/compact.go:147-173 | a schema has one signature, so map iteration order is invisible |

## Left out

- Network, `gh`, git, command lines and HTML, Mermaid and Markdown rendering: I/O and presentation.
- PyYAML and the regular expressions of both scripts: the models start from tagged lines, id lists and characters.
- `epic_shipped_on` and `archive_append_target`: their answers are arbitrary inputs of a sweep.
- The text of the archive header and of error, reason and notice strings: tags.
- `encoding/json`, `bench/canonical.go`, tiktoken and SHA-256: arbitrary functions and lexeme streams.
- Report labels that no decision reads (suite, fleet shape, provenance).
- Floating-point rounding and 64-bit integer limits.
- Tron.ListingIsLossless: stated over the structured listing, because the text format deliberately leaves its delimiters unescaped.
- Compact.CompactParams: the parameter list before it is joined with commas, for the same reason.
- Spans.AttributeTokens: tokens are the byte lengths of their pieces; the tokenizer's own round-trip check is the requirement that they cover the text.
- CellRows.BlockReads: of a cell whose records name two sources, the number of runs counted is as the fold has it, since it depends on which source came first.
- CommentPieces.PiecesAreStripped: a block comment that begins with a slash is not among its pieces; `CommentSyntax` says what happens to it.
- Publication.PublicationCheck: path rules (`filepath.Clean`, absolute paths) are arbitrary predicates.
- CommentSyntax.StripsAsReference: the reference takes string literals to be the scanner's; expressions nested in template literals, Swift interpolation and multi-line strings, and apostrophes and backticks that are not quotes are not part of this model.
- `SummarizeResponseCost`, the Spec 102 verdict, `modematrix`, `breakeven`, `session`, `lapcheck` and `replay`: finite tables, one-branch arithmetic or single-loop counts.
- The comparison stages of the settings-parity gate beyond its two scanners: regular-expression extraction.
- `AggregateTokenFigures` and the driver loop that collects records: one equality test, and I/O.
