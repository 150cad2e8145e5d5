# Governed BI: verified model

A Dafny model of the parts of the repository whose comments promise an invariant: the graph scoping
of the explorer, the SQL formatter of the answer card, the fold of event streams and frames into
timeline and transcript, the two memo tables, the mock chat machine, the resume protocol of the
evaluation driver, and two text passes over the corpus. One module per concern:

- `SqlTokens`, `SqlLexemes`, `SqlSpacing`, `SqlRespelling`, `SqlLayout`, `SqlSeparators`,
  `SqlRefinement`, `SqlSingleLine`, `SqlRoundTrip`, `SqlFormat`, `SqlGuard`, `SqlClauses`:
  `ui/lib/sql-format.ts`. The tokenizer is a longest-alternative scanner. The layout pass (buffer,
  depth, stack of select lists) refines a declarative reading that names the blank space before each
  token from the stream alone; that reading is then tokenized again.
- `Graphs`, `GraphScope`, `ErScope`, `KgScope`, `EdgeOrder`: `ui/lib/graph-scope.ts`.
- `Steps`, `Clarifications`, `HeldTurns`: `ui/lib/steps.ts` and `ui/hooks/use-stream-chat.ts`.
- `Transcript`, `TurnRecords`, `SettledRecords`: `ui/lib/stream-messages.ts`. `CapturedTurns`: the captures of
  `ui/hooks/use-stream-chat.ts` on top of it.
- `Chat`: `ui/hooks/use-chat.ts` as a class, and as a state machine over its commands.
- `LayoutCache`, `AssetCatalog`, `Namespace`: the caches of `ui/lib/graph-layout.ts` and
  `ui/lib/asset-catalog.ts`, with the catalog merge and the namespace derivation.
- `EvalResume`: `tools/run_datalake_eval.py` as a class, and as a state machine over launches, rows
  and interruptions; the launch rules come from `src/governed_bi/eval/provenance.py`.
- `SummaryBlocks`, `DensifyFit`: `tools/check_no_benchmark_discriminators.py` and
  `tools/densify_summaries.py`.
- `Text`, `Json`, `Lists`, `Sorting`, `JsMaps`: blank space, decimal numerals, filter and slice,
  stable sorting, insertion-ordered maps.

Loops of the source are methods with invariants, objects it updates are classes; each is proved equal
to a function, and the promises are lemmas about that function.

## What the proofs turned up

- The guard of `formatSql` is not idle. It discards the layout exactly when two neighbours fuse without
  a blank (an integer, a dot and a number; a leftover ending in `:` before `::`), or a closing line
  comment is followed by blanks that `trim` removes. `SqlGuard` has a statement of each kind.
- The entry `"::"` of `NO_SPACE_AFTER` (`ui/lib/sql-format.ts:136`) can never apply: the lookup is by
  one character. So a cast is written `x:: int`, which is still the same stream.
- `signature` tells layouts apart exactly over alphabets of ids without `,` and `>` that do not have all
  of `|`, `:`, `x` and a digit. Over every other one, two graphs share a key and the second is answered
  with the layout of the first.
- A focus overrides the schema filter (`ui/lib/graph-scope.ts:157-160`).
- The knowledge graph counts ids as matched that name no node, so it can report truncation when
  nothing was cut. The table graph searches through such ids too and then drops their edges: a kept node
  is at its distance exactly if a shortest walk avoids them.
- The expansion of the knowledge graph is not one hop, as its comment says: it follows edges whose
  positions in the list rise. The order of the edges decides what is kept as soon as something reachable lies
  beyond the neighbours of the seeds.
- `_fit` exceeds its cap exactly when the words before the tail do, stripped, and no entry fits behind
  them.
- A turn that finishes without leaving a frame, as a decline does, is filed by `onFinish` under the last frame
  before its question: an answer card there becomes the card of that turn, unless it has a stamp, and then its
  trace does. A record that comes late changes its card if nothing was captured for it and the card has no
  stamp. In one thread with truthful records and the clarification facts fixed, nothing else changes a settled
  row.

## Model

| member | source | states |
|---|---|---|
| `SqlTokens.TokenizeSql` | ui/lib/sql-format.ts:50-80 | the exec loop with its `last` index produces the stream that the recursive scan of the text defines |
| `SqlTokens.Exec` | ui/lib/sql-format.ts:55 | the global regex search stops at the first offset where a token can start, and nowhere else |
| `SqlTokens.NextToken` | ui/lib/sql-format.ts:58-75 | one turn of the loop moves exactly one match, with the trimmed gap before it, from the unread text to the stream |
| `SqlLexemes.MatchFits` | ui/lib/sql-format.ts:32-33 | a match is a lexeme of its kind, in a grammar of whole lexemes that spells out characters, operators, comments and paired quotes |
| `SqlLexemes.FitMatches` | ui/lib/sql-format.ts:19-33 | a lexeme at the head of a text is matched as its kind, up to the longest one there (a block comment: the shortest); only an operator gives way, to the comment it opens |
| `SqlSpacing.TokensLexed` | ui/lib/sql-format.ts:50-80 | in any stream: tokens are not empty, each reads back as itself, two leftovers are never adjacent, and an unclosed quote is the last of its kind |
| `SqlSpacing.DeadIsNone` | ui/lib/sql-format.ts:32-33 | the characters at which no alternative of the regex matches, characterized without the regex |
| `SqlSpacing.LexExtends` | ui/lib/sql-format.ts:32-33 | longest match: a token is cut at the same place whenever what follows it may not extend it |
| `SqlRespelling.ScanIsLossless` | ui/lib/sql-format.ts:50-80 | any text is its tokens, in order, with only blank space before, between and after them |
| `SqlRespelling.ReadOne` | ui/lib/sql-format.ts:50-80 | a token written after blank space and before text that settles it is read back as that token |
| `SqlRespelling.Respell` | ui/lib/sql-format.ts:88-93 | respacing a stream with any blank separators, as long as every seam settles, leaves the stream as it is |
| `SqlLayout.LayoutPass.DoFlush` | ui/lib/sql-format.ts:182-185 | the buffer joins the lines when it shows anything, and is emptied |
| `SqlLayout.LayoutPass.DoStartLine` | ui/lib/sql-format.ts:186-189 | a break, then the indent of the current depth; a negative depth indents nothing |
| `SqlLayout.LayoutPass.DoAppend` | ui/lib/sql-format.ts:190-198 | the one-space rule, decided from the last visible character of the buffer |
| `SqlLayout.LayoutPass.CloseParen` | ui/lib/sql-format.ts:213-221 | the pop loop ends every select list deeper than the level returned to, also when the parentheses do not balance |
| `SqlLayout.LayoutPass.Take` | ui/lib/sql-format.ts:200-256 | one turn of the layout loop is one step of the layout specification, branch for branch |
| `SqlLayout.FormatSql` | ui/lib/sql-format.ts:164-265 | early returns, loop, last flush, trim and guard together compute the specified `Format` |
| `SqlSeparators.PopKeepsShallow` | ui/lib/sql-format.ts:216-218 | popping keeps exactly the entries that are no deeper, and the stack sorted and bounded |
| `SqlSeparators.StepTracks` | ui/lib/sql-format.ts:200-256 | after every token `depth` is the parentheses left open, and `selectDepths` is sorted, bounded by `depth` and holds exactly the levels of unfinished select lists |
| `SqlRefinement.StepShows` | ui/lib/sql-format.ts:200-256 | after every token the buffer and lines show the declared separators so far and nothing else |
| `SqlRefinement.LayOutShows` | ui/lib/sql-format.ts:200-257 | both of the above after any number of tokens of any shown stream |
| `SqlRefinement.LaidOutIsWoven` | ui/lib/sql-format.ts:175-259 | the final text is the tokens with the declared separators (clause, connective, list item, space or none), each said from the token positions alone |
| `SqlClauses.ClauseStarts` | ui/lib/sql-format.ts:233-247 | where a clause line starts, from the words: a clause word, `JOIN` unless one of the seven modifiers stands before it, `GROUP` and `ORDER` exactly if `BY` follows |
| `SqlClauses.LaidOutSeparates` | ui/lib/sql-format.ts:133-259 | the laid out text is the tokens with, between any two, what a table over their words and marks says: a break to the open level before a clause, one level deeper before `AND`, `OR` and list items; before `(` a blank after a keyword and none after another word; no blank before a mark or behind `(` and `.`; else one blank |
| `SqlClauses.FormatSeparates` | ui/lib/sql-format.ts:164-265 | the same of what the formatter returns for every statement it lays out |
| `SqlSingleLine.TokensOneLine` | ui/lib/sql-format.ts:166-173 | a trimmed one-line text has a stream in which only the last token may be a line comment |
| `SqlRoundTrip.SettlesAt` | ui/lib/sql-format.ts:200-256 | where nothing fuses, every token of the laid out text settles against what the layout wrote after it |
| `SqlRoundTrip.FusedNumberDiffers` | ui/lib/sql-format.ts:133-136 | integer, dot, number always tokenize differently once laid out |
| `SqlRoundTrip.FusedColonDiffers` | ui/lib/sql-format.ts:133-136 | a leftover ending in `:` before `::` always tokenizes differently once laid out |
| `SqlRoundTrip.LayoutRoundTrips` | ui/lib/sql-format.ts:175-263 | for every stream of a trimmed single line: the laid out text tokenizes to that stream if and only if no two neighbours fuse |
| `SqlGuard.SpacedDecimalFuses` | ui/lib/sql-format.ts:164-263 | `1 . 2` before any long word: past the early returns, laid out with another stream, and handed back unchanged |
| `SqlGuard.SpacedCastFuses` | ui/lib/sql-format.ts:164-263 | the same for a lone colon before a cast |
| `SqlGuard.ClosingCommentRunsOn` | ui/lib/sql-format.ts:164-263 | the same for a closing line comment with a blank behind it |
| `SqlGuard.GuardIsNeeded` | ui/lib/sql-format.ts:259-263 | so the guard fires on a statement of each family |
| `SqlFormat.TrailIsDropped` | ui/lib/sql-format.ts:50-80 | blanks at the end change the stream exactly when it ends in a line comment they run on from |
| `SqlFormat.TrimKeepsTokens` | ui/lib/sql-format.ts:164-166 | trimmed and original one-line statements have the same stream except in that one case |
| `SqlFormat.CommentRunsOn` | ui/lib/sql-format.ts:164-263 | in that case the original stream ends in a comment with trailing blanks |
| `SqlFormat.GuardPasses` | ui/lib/sql-format.ts:259-263 | the guard accepts a layout exactly when nothing fuses and no closing comment runs on |
| `SqlFormat.FormatIs` | ui/lib/sql-format.ts:164-265 | for every string, which of the two results comes back and why: the layout under that condition, the input otherwise |
| `SqlFormat.OnlyBlanksChange` | ui/lib/sql-format.ts:164-265 | input and output are one token list, spaced twice: the result always satisfies `sameTokens` |
| `SqlFormat.FormatIsIdempotent` | ui/lib/sql-format.ts:164-265 | formatting twice is formatting once, on every string |
| `SqlFormat.LayoutFollowsTokens` | ui/lib/sql-format.ts:164-265 | two statements that are laid out and share a stream get the same text |
| `Graphs.BuildAdjacency` | ui/lib/graph-scope.ts:143-150 | the neighbour sets are exactly the undirected reading of the edges, each neighbour once |
| `Graphs.BfsDistances` | ui/lib/graph-scope.ts:74-94 | a node maps to `d` if and only if its shortest undirected walk from the focus has `d` edges and `d` is at most the radius, on any graph |
| `Graphs.Expand` | ui/lib/graph-scope.ts:83-90 | expanding one frontier node keeps earlier distances and gives every unseen neighbour the next level |
| `Graphs.CoversNext` | ui/lib/graph-scope.ts:81-92 | one round of the search: what is covered to one level is covered to the next |
| `Graphs.CoversAll` | ui/lib/graph-scope.ts:81 | stopping on an empty frontier loses nothing up to the radius |
| `GraphScope.TruncationIsPart` | ui/lib/graph-scope.ts:163-172 | the cut keeps `min(limit, count)` candidates, none more often than it occurs |
| `GraphScope.TruncationKeepsFirst` | ui/lib/graph-scope.ts:163-172 | what is kept is in order, and no dropped candidate comes strictly before it |
| `GraphScope.OrderAndSlice` | ui/lib/graph-scope.ts:163-172 | sorting by distance, then id, and slicing is such a cut |
| `ErScope.ApplyErGraphScope` | ui/lib/graph-scope.ts:124-211 | echo, pass-through, schema, focus and budget branches produce the specified payload |
| `GraphScope.UnscopedShows` | ui/lib/graph-scope.ts:133-141 | an unnarrowed payload comes back whole, with the boundary and meta it had or else an empty boundary and a meta that reports nothing missing |
| `ErScope.SortEdges` | ui/lib/graph-scope.ts:175-203 | one pass sorts edges into in-scope, boundary and neither, in edge order |
| `ErScope.KeepsShortest` | ui/lib/graph-scope.ts:156-183 | a kept node with a shortest walk through nodes of the payload has a walk of that length through returned edges |
| `ErScope.KeptAtItsDistance` | ui/lib/graph-scope.ts:143-209 | for every budget and payload: a kept node is at its old distance in the returned graph if and only if the edges between nodes of the payload already give it that distance |
| `ErScope.TruncationStaysConnected` | ui/lib/graph-scope.ts:143-209 | so where edges join nodes, every kept node lies within the radius and is joined to the focus, at its old distance, by returned edges |
| `ErScope.UnknownEndCutsOff` | ui/lib/graph-scope.ts:156-183 | an input whose edges lead through an id that is no node: there a kept node is cut off |
| `ErScope.NearestAreKept` | ui/lib/graph-scope.ts:163-173 | a node inside the radius is dropped only for nodes nearer, or as near with an id no later |
| `ErScope.UnfocusedKeeps` | ui/lib/graph-scope.ts:152-173 | without a focus: only tables of the schema asked for come back, one is left out only when the budget is too small and then none returned comes after it by id, and all of them are counted as matched; without a schema the same of all tables |
| `ErScope.CrossingsLeave` | ui/lib/graph-scope.ts:182-201 | the boundary has an entry for every edge from a kept table to a known table of another schema, and no other, with the fields of that edge |
| `ErScope.CrossingsCross` | ui/lib/graph-scope.ts:184-199 | a boundary edge joins a kept table to a known table outside, in another schema, along a real edge |
| `ErScope.EdgesSplit` | ui/lib/graph-scope.ts:175-203 | every edge is exactly one of in-scope, boundary and discarded |
| `ErScope.ScopeAccountsForAll` | ui/lib/graph-scope.ts:124-211 | of the whole payload: the three edge counts add up, kept + dropped = matched, `truncated` says whether anything was dropped |
| `KgScope.ApplyKnowledgeGraphScope` | ui/lib/graph-scope.ts:215-321 | seeds, expansion, listing, cut and bridges produce the specified payload |
| `KgScope.PullIn` | ui/lib/graph-scope.ts:260-267 | the expansion loop computes the specified set |
| `KgScope.PulledIsRising` | ui/lib/graph-scope.ts:260-267 | which ids the growing scan keeps: those a walk from a seed reaches along edges of rising position, and no others |
| `KgScope.PulledIsSandwiched` | ui/lib/graph-scope.ts:260-267 | the kept set holds every seed and every neighbour of one, and only ids reachable from a seed |
| `KgScope.FindBridges` | ui/lib/graph-scope.ts:287-313 | the loop over join nodes collects the specified bridges, in node order |
| `KgScope.BridgeJoins` | ui/lib/graph-scope.ts:288-312 | a join node yields a bridge if and only if exactly two tables are linked to it, one kept and one not, of different schemas, whichever was linked first |
| `KgScope.BridgesJoin` | ui/lib/graph-scope.ts:287-313 | the boundary holds an entry for every such join and no other |
| `KgScope.ReturnedAreKept` | ui/lib/graph-scope.ts:215-321 | of the result of a call: only known nodes that the scope keeps come back, one is left out only when the budget is full and without a focus none returned comes after it by id; the edges are those with both ends returned |
| `KgScope.NeighbourhoodComesFirst` | ui/lib/graph-scope.ts:269-283 | in-radius nodes stand before pulled-in ones and are never dropped for them; returned edges are exactly those with both ends kept |
| `KgScope.TruncatedWithoutCutting` | ui/lib/graph-scope.ts:269-319 | of the result of a call: `truncated` if and only if a node the scope is about was cut or an id it is about names no node |
| `KgScope.UnknownIdTruncates` | ui/lib/graph-scope.ts:269-319 | a payload that comes back whole and still reports truncation |
| `KgScope.EdgeOrderMatters` | ui/lib/graph-scope.ts:260-267 | two orders of the same edges that pull in different ids |
| `EdgeOrder.OrderIsIrrelevant` | ui/lib/graph-scope.ts:260-267 | the kept ids are the same under every order of the edges if and only if all that a seed reaches are seeds and neighbours of seeds |
| `Steps.StepKeepsTimeline` | ui/lib/steps.ts:606-648 | one event, merged or added, keeps the fold equal to the per-key reading of the events so far |
| `Steps.FoldIsTimeline` | ui/lib/steps.ts:606-648 | after any events: one row per key in first-arrival order, numbered from the first event on, each the summary of its own events |
| `Steps.FoldIsOrdered` | ui/lib/steps.ts:595-648 | keys are distinct and positions strictly increase, so the sort never moves a row |
| `Steps.RowIsItsOwnEvents` | ui/lib/steps.ts:606-648 | two streams that give a key the same events show it the same row, whatever is interleaved |
| `Steps.RowSays` | ui/lib/steps.ts:606-648 | a row shows kind, step, status and label of the last event of its key, running exactly while that is a start; its detail has each property that any of its events carried, with the value carried last, and no other |
| `Steps.UnnamedKeys` | ui/lib/steps.ts:607 | events without an id share a row exactly if they are of one step and one number |
| `Steps.NamedKeys` | ui/lib/steps.ts:607 | events with an id share a row exactly if they share the id |
| `Steps.RenumberingShifts` | ui/lib/steps.ts:595-648 | restarting the wire counter of events with ids shifts all positions by one constant and changes nothing else |
| `Steps.RepairsAreFailedChecks` | ui/lib/steps.ts:658-662 | the repair count is the number of keys whose last event is a failed check |
| `Clarifications.WithClarifications` | ui/hooks/use-stream-chat.ts:170-193 | the loop that rebinds `out` computes the specified projection |
| `Clarifications.JoinAllProjects` | ui/hooks/use-stream-chat.ts:170-193 | engine rows in place and in order, each merged with its own fact if it has one, then one row per pending fact no engine row asks about |
| `Clarifications.EngineRowsStand` | ui/hooks/use-stream-chat.ts:170-218 | key, position and settled status of engine rows never change; resolved facts append nothing |
| `Clarifications.MergedShows` | ui/hooks/use-stream-chat.ts:194-218 | a merged row shows its own status, or that of the resolution while it was still running, the question, and the answer or the refusal to answer; all else as it was |
| `Clarifications.AddedShows` | ui/hooks/use-stream-chat.ts:220-242 | an added row asks its question: reserved key, running, behind every row there is, with nothing in its detail but the fact |
| `Clarifications.KeysStayDistinct` | ui/hooks/use-stream-chat.ts:206-220 | keys stay distinct if and only if no engine row already bears the key of an added row |
| `Clarifications.JoinAllIsIdempotent` | ui/hooks/use-stream-chat.ts:170-193 | projecting the projection again changes nothing |
| `Clarifications.DisplayedTimelineIsSound` | ui/hooks/use-stream-chat.ts:170-220 | over any folded events none of whose keys starts with the reserved prefix, all displayed keys differ |
| `HeldTurns.HeldIsLongest` | ui/hooks/use-stream-chat.ts:418-426 | while a thread stays open, the cell holds the longest reading seen of it |
| `HeldTurns.UsedIsLongest` | ui/hooks/use-stream-chat.ts:418-430 | every render uses that reading: rows neither shrink nor come from another thread |
| `Transcript.SettledNeverChanges` | ui/lib/stream-messages.ts:282-353 | rows up to the last question are the same at every moment and remain a prefix after any further frames |
| `Transcript.TwoAnswersNeedAQuestion` | ui/lib/stream-messages.ts:97-120 | two answering frames have a question between them |
| `Transcript.OneAnswerPerQuestion` | ui/lib/stream-messages.ts:286-369 | without stamps, no two assistant rows are adjacent: at most one answer per question |
| `Transcript.FinishedTurnShowsItsAnswer` | ui/lib/stream-messages.ts:298-369 | idle with a channel answer: exactly one card follows the last question, on its frame or appended |
| `Transcript.RunningTurnIsSilent` | ui/lib/stream-messages.ts:321-350 | a turn that is running and unrecorded shows no row |
| `Transcript.FlattenIs` | ui/lib/stream-messages.ts:32-46 | the text of a message: a string itself, of a list the texts of its parts in order, of anything else none |
| `Transcript.PlainTurnShowsText` | ui/lib/stream-messages.ts:338-352 | idle without a channel answer, the last AI frame of an unrecorded turn shows its text and no other frame of it shows anything |
| `TurnRecords.TurnFinalAiFrames` | ui/lib/stream-messages.ts:97-110 | the counter loop yields the tagged turn-final frames |
| `TurnRecords.FramesAreTagged` | ui/lib/stream-messages.ts:97-120 | a frame is listed if and only if it is turn-final, with the number of questions before it, less one |
| `TurnRecords.TagsRise` | ui/lib/stream-messages.ts:97-120 | tags strictly increase |
| `TurnRecords.StatedQuestionNumber` | ui/lib/stream-messages.ts:142-150 | a stated number is a whole number from 1 on |
| `TurnRecords.StatedNumberIs` | ui/lib/stream-messages.ts:142-150 | a record states n exactly if its usage is a list in which the first object with a whole `turn_index` from 1 on has n; none exactly if no element has one |
| `TurnRecords.ReadRowIs` | ui/lib/stream-messages.ts:199-208 | a row is read exactly if it is an object whose record has a turn id that is a non-empty string |
| `TurnRecords.EnvelopeIs` | ui/lib/stream-messages.ts:217-222 | what an answer is parsed from: outcome, or `answered`; the answer text if it is a string; no text; the record |
| `TurnRecords.TurnAnswersByMessageId` | ui/lib/stream-messages.ts:186-226 | the cursor loop computes the specified run of the cursor |
| `TurnRecords.SkippedRowsDoNotCount` | ui/lib/stream-messages.ts:199-207 | rows without a record or a turn id, and repeated turns, move neither the cursor nor the attachments |
| `TurnRecords.CursorFindsTurns` | ui/lib/stream-messages.ts:196-210 | of any rows: the cursor gives every counted one its true turn if and only if each counted one that follows a gap states its number |
| `TurnRecords.RunLands` | ui/lib/stream-messages.ts:196-224 | then over any rows each answer lands on the frame of its turn, also past rows that do not parse or have no frame |
| `TurnRecords.RecordsLandOnTheirTurn` | ui/lib/stream-messages.ts:186-226 | for whole transcripts and any rows: every turn with a frame and a readable record shows that record, and nothing else is attached |
| `TurnRecords.CarriedRecordsLand` | ui/lib/stream-messages.ts:186-226 | for rows whose usage carries the question number, whatever turns left no row: each record is shown on the frame that ends its turn, and no other frame shows any |
| `SettledRecords.AttachedIsAnswer` | ui/lib/stream-messages.ts:186-226 | what is attached to a frame is the record of the turn it ends |
| `SettledRecords.AttachedStands` | ui/lib/stream-messages.ts:186-226 | a record attached before the last question stays attached while frames and rows arrive; a new one appears there if and only if it is the late record of the turn the frame ends |
| `CapturedTurns.CaptureCells.DoFinish` | ui/hooks/use-stream-chat.ts:282-299 | the backwards loop files answer and trace under the last frame that is no question, or nowhere if there is none |
| `CapturedTurns.FiledEarlier` | ui/hooks/use-stream-chat.ts:290-297 | a finished turn is filed under a frame of an earlier turn if and only if its question is the last frame |
| `CapturedTurns.FiledOnCard` | ui/hooks/use-stream-chat.ts:290-297 | the frame it is filed under can carry an answer card if and only if it is an AI frame, so a capture filed under a tool or system frame is never shown as one |
| `CapturedTurns.FiledOnSettled` | ui/hooks/use-stream-chat.ts:290-297 | a later finish is filed under a settled frame if and only if only questions have followed, and then under the last frame that is no question |
| `CapturedTurns.CapturesStand` | ui/hooks/use-stream-chat.ts:282-299 | through any finished turns, the captures of every other settled frame stand, and of that one too unless a turn was silent |
| `CapturedTurns.SettledWithCaptures` | ui/hooks/use-stream-chat.ts:368-450 | for any captures before and after: the settled transcript is no longer what the later one opens with if and only if some unstamped card with nothing captured gets its record late, or some card shows another capture |
| `CapturedTurns.RefiledBySilence` | ui/hooks/use-stream-chat.ts:282-450 | captures change the last settled card only, and only through a turn that left no frame |
| `CapturedTurns.SettledTurnsChange` | ui/hooks/use-stream-chat.ts:282-450 | over any frames, truthful rows and finished turns that arrive: exactly when the settled transcript changes |
| `CapturedTurns.SilentFinishOverwrites` | ui/hooks/use-stream-chat.ts:282-450 | in any conversation that ends in a question after an unstamped answer: a turn that finishes without a frame turns that answer card into its own |
| `CapturedTurns.DeclineOverwrites` | ui/hooks/use-stream-chat.ts:282-450 | the shortest such conversation: the card of the first answer becomes the card of the decline |
| `CapturedTurns.LateRecordOvertakes` | ui/hooks/use-stream-chat.ts:432-450 | a conversation of three frames whose first record comes late: the settled transcript stays as it is if and only if the answer was captured |
| `CapturedTurns.OtherFactsDoNotShow` | ui/hooks/use-stream-chat.ts:368-377 | a resolved clarification that no row of the card asks about changes nothing on it |
| `CapturedTurns.StepsShown` | ui/hooks/use-stream-chat.ts:368-377 | a card shows the captured trace if there is one, else that of the ledger, else none |
| `CapturedTurns.AnswerShown` | ui/hooks/use-stream-chat.ts:439-440 | a captured answer is read before the record |
| `Chat.ChatHook.DoSend` | ui/hooks/use-chat.ts:176-242 | guards, new question, cleared cells and the timer of the chosen path |
| `Chat.ChatHook.DoTick` | ui/hooks/use-chat.ts:208-239 | one firing: fold the next event, or raise the question and hold, or resolve |
| `Chat.ChatHook.DoResolve` | ui/hooks/use-chat.ts:164-174 | timer gone, answer appended, idle |
| `Chat.ChatHook.DoRespond` | ui/hooks/use-chat.ts:247-280 | the reply folds into the held trace and picks refusal or answer; nothing happens without a question |
| `Chat.ChatHook.DoStop` | ui/hooks/use-chat.ts:284-291 | timer, steps and pending question gone, transcript untouched |
| `Chat.ChatHook.DoReset` | ui/hooks/use-chat.ts:293-299 | the same, and the transcript is emptied |
| `Chat.PerformStaysSound` | ui/hooks/use-chat.ts:164-299 | every operation keeps the invariant that `Chat.EveryRunIsSound` states |
| `Chat.EveryRunIsSound` | ui/hooks/use-chat.ts:140-312 | in every reachable state: running means exactly one of timer and pending question, and a transcript ending in a question; each answer follows its own question; ids never repeat; the shown trace is the fold of what was played |
| `Chat.TranscriptOnlyGrows` | ui/hooks/use-chat.ts:164-291 | only reset removes messages |
| `Chat.QuestionIsAnswered` | ui/hooks/use-chat.ts:228-239 | a plain question ends, after one tick per event and one more, in its own answer with the whole trace |
| `Chat.QuestionIsHeld` | ui/hooks/use-chat.ts:208-221 | the turn that asks holds after its preamble, through any number of further ticks, with its whole trace kept |
| `Chat.ClarificationIsAnswered` | ui/hooks/use-chat.ts:194-280 | a clarified question holds through any number of further ticks, and the reply ends it in refusal or answer with the whole trace |
| `Chat.ReplySettlesTheQuestion` | ui/hooks/use-chat.ts:255-274 | the reply merges into the row that asked: four rows, not five, the last one settled and showing the question |
| `Chat.ReplyShows` | ui/hooks/use-chat.ts:194-280 | the whole trace of an answered clarification: steps, status, and the question with the reply to it |
| `Chat.CaptionIs` | ui/hooks/use-chat.ts:255-260 | a chosen option shows the caption of the first choice of its id, or the id if there is none |
| `Chat.ScriptAnswers` | ui/hooks/use-chat.ts:108-123 | a refused question gets the refusal and is never asked back; the order of the other answers |
| `Chat.ResetEmpties` | ui/hooks/use-chat.ts:284-299 | what stop and reset leave |
| `LayoutCache.SignatureIsInjective` | ui/lib/graph-layout.ts:44-48 | without a comma in ids, an arrow in edge sources, and all the characters of `:1x1` and a bar among the edges: equal keys mean equal resolved options, edges, and node ids with sizes |
| `LayoutCache.SoundExactlyWithoutSeparators` | ui/lib/graph-layout.ts:44-57 | for any alphabet of ids: inputs that share a key share their layout under every dagre, if and only if it has neither comma nor arrow, and not the bar together with `:`, `x` and a digit |
| `LayoutCache.ArrowConfuses` | ui/lib/graph-layout.ts:44-48 | with `>`: an edge and its reverse share a key, and a dagre that tells them apart |
| `LayoutCache.CommaConfuses` | ui/lib/graph-layout.ts:44-48 | with a comma: two graphs on the same nodes, drawn with opposite edges, share a key, and a dagre that tells them apart |
| `LayoutCache.BarConfuses` | ui/lib/graph-layout.ts:44-48 | with a bar, `:`, `x` and any digit: two graphs on different nodes share a key, and their layouts differ under every dagre |
| `LayoutCache.SameDrawingSameLayout` | ui/lib/graph-layout.ts:59-86 | whatever dagre computes, inputs that agree on what the key should say have the same layout (`rank` is never drawn) |
| `LayoutCache.ResolvedOptions` | ui/lib/graph-layout.ts:47-63 | options that are given stand, the others have their defaults, in the key and in the drawing alike |
| `LayoutCache.DrawGraph` | ui/lib/graph-layout.ts:59-75 | the two loops build the specified drawing |
| `LayoutCache.BoxesAreLast` | ui/lib/graph-layout.ts:69 | one box for each node id, of the size that its last node has |
| `LayoutCache.DrawnEdgesAre` | ui/lib/graph-layout.ts:70-75 | drawn are exactly the edges between two different known nodes, each once |
| `LayoutCache.PlaceNodes` | ui/lib/graph-layout.ts:79-86 | the loop computes the specified positions |
| `LayoutCache.PlacesAreLast` | ui/lib/graph-layout.ts:79-86 | one position for each node id and no other: the top-left corner of its last node, or the origin where nothing was laid |
| `LayoutCache.LayoutEngine.LayoutGraph` | ui/lib/graph-layout.ts:50-95 | every result is a fresh layout of some input with the same key, and of this very input as long as only safe ids were ever asked for; a hit changes nothing, a miss stores one entry |
| `LayoutCache.LayoutEngine.Remember` | ui/lib/graph-layout.ts:88-93 | eviction and insertion are the bounded first-in first-out store: 32 entries, the latest ones |
| `LayoutCache.AskBoth` | ui/lib/graph-layout.ts:50-57 | asked for two inputs of one key, the engine answers the second with the layout of the first |
| `LayoutCache.StaleLayouts` | ui/lib/graph-layout.ts:44-57 | three sessions, one for each separator, that end in a layout other than the one asked for |
| `AssetCatalog.AssetSearcher.DoSearch` | ui/lib/asset-catalog.ts:173-194 | every search equals the uncached one; the cache always holds the last 64 distinct stored queries |
| `AssetCatalog.StoreStaysRemembered` | ui/lib/asset-catalog.ts:184-190 | storing keeps every remembered result right and evicts the oldest |
| `Namespace.StripPrefix` | ui/lib/asset-catalog.ts:55-61 | the loop over the listed prefixes, with its break, computes the specified rest of the id |
| `Namespace.StripTypeIs` | ui/lib/asset-catalog.ts:36-61 | either no listed prefix fits and the id stands, or the first that fits is cut off it, once |
| `Namespace.DeriveNamespace` | ui/lib/asset-catalog.ts:54-66 | the first listed schema that the stripped id names; none exactly if no schema does |
| `Namespace.NamesIs` | ui/lib/asset-catalog.ts:62-64 | an id names a schema by being it or by going on from it with an underscore |
| `Namespace.LongestFirstIsUnique` | ui/lib/asset-catalog.ts:68-72 | on a longest-first list the first match is the one longest match |
| `Namespace.SchemasAre` | ui/lib/asset-catalog.ts:69-73 | the list has every schema of the tables once and none before a longer one, lengths in UTF-16 units |
| `Namespace.DerivedIsLongest` | ui/lib/asset-catalog.ts:54-73 | over that list, the derived namespace is the one longest schema the id names, and none only if it names none |
| `AssetCatalog.MergeAssetCatalog` | ui/lib/asset-catalog.ts:87-135 | one row per id, the table row where there is one, else the last asset row; every id of either list; sorted by type, then id |
| `AssetCatalog.MergedIsCatalog` | ui/lib/asset-catalog.ts:129-134 | two passes of `Map.set` and a sort give that catalog |
| `AssetCatalog.RowsShowTheirSchema` | ui/lib/asset-catalog.ts:91-114 | each row of the merged catalog shows a table its own schema, an asset the one it states, or else the longest schema of the tables that its id names |
| `AssetCatalog.CatalogIsOrdered` | ui/lib/asset-catalog.ts:132-134 | no row stands behind one of a later type, nor behind one of its own type with a later id |
| `AssetCatalog.RowsShow` | ui/lib/asset-catalog.ts:92-115 | which fields of an asset or a table a row shows |
| `EvalResume.ReadArtifact` | tools/run_datalake_eval.py:546-566 | the loop over the lines: measured ids, kept lines, number of crashed rows |
| `EvalResume.EvalDriver.DoLaunch` | tools/run_datalake_eval.py:546-585 | refusal, truncation, rewriting without crashed rows, and the questions left to ask |
| `EvalResume.EvalDriver.DoOnRow` | tools/run_datalake_eval.py:683-688 | a finished question appends its one row |
| `EvalResume.ResumeKeepsMeasured` | tools/run_datalake_eval.py:553-584 | the file a resume continues holds exactly the measured rows, each question once |
| `EvalResume.LaunchStaysSound` | src/governed_bi/eval/provenance.py:226-283 | fresh start, refusal, truncation and resume all keep the invariant that `EvalResume.EveryRunIsSound` states |
| `EvalResume.EveryRunIsSound` | tools/run_datalake_eval.py:546-585 | through any launches, each with its own scope, rows and interruptions: one row per question at most; while a process is up all rows are of questions it covers, and what it has left to ask and what is recorded share those out |
| `EvalResume.MeasuredRowsSurvive` | tools/run_datalake_eval.py:553-585 | no step loses a measured row unless told to truncate, and no appended row repeats a question |
| `EvalResume.ResumeAsksTheRest` | tools/run_datalake_eval.py:561-585 | a resume asks exactly the covered questions not measured; every crashed row leaves the file and, if still covered, is asked again |
| `EvalResume.NarrowedScopeIsRefused` | src/governed_bi/eval/provenance.py:486-496 | under the same treatment, a resume is refused and changes nothing if and only if its scope leaves out a measured question |
| `EvalResume.RefusedLaunches` | src/governed_bi/eval/provenance.py:200-283 | what is refused whatever the scope, that a refusal changes nothing, and that truncation starts from an empty artifact |
| `EvalResume.WidenedScopeAsksTheRest` | tools/run_datalake_eval.py:546-585 | a resume that covers all an earlier run covered is not refused, and asks what is new in scope and what is not measured |
| `EvalResume.FinishedRunIsComplete` | tools/run_datalake_eval.py:683-688 | a run that has appended all its rows leaves exactly one row per question it covers |
| `SummaryBlocks.SummaryBlocks` | tools/check_no_benchmark_discriminators.py:294-328 | the line-state loop with its inner flush yields the declared blocks |
| `SummaryBlocks.BlocksFollowStarts` | tools/check_no_benchmark_discriminators.py:307-328 | each opened block is emitted once, in order, as its line number and its joined lines |
| `SummaryBlocks.StartsAreOuter` | tools/check_no_benchmark_discriminators.py:314-326 | a key line opens a block if and only if it is not inside an earlier open one; spans are disjoint |
| `SummaryBlocks.BlocksAreOuterKeys` | tools/check_no_benchmark_discriminators.py:294-328 | both together: blocks are exactly the outer summary keys, each with the lines up to the first non-blank line indented no deeper |
| `SummaryBlocks.BlockReaches` | tools/check_no_benchmark_discriminators.py:315-322 | every line with text in a block has more leading blanks than its key; the line behind it has text and no more |
| `SummaryBlocks.SiblingsStandApart` | tools/check_no_benchmark_discriminators.py:315-322 | of two keys at one indent neither lies in the block of the other |
| `SummaryBlocks.KeyLineIs` | tools/check_no_benchmark_discriminators.py:114 | a key line is blanks, the word with or without quotes, blanks and a colon; its value is the rest, stripped |
| `SummaryBlocks.JoinedIs` | tools/check_no_benchmark_discriminators.py:126 | a value is the lines joined by blanks, stripped, behind a block scalar header if there is one |
| `DensifyFit.Fit` | tools/densify_summaries.py:92-109 | the pop loop keeps the longest prefix of whole cleaned entries that fits, and reports trimming exactly if an entry was dropped |
| `DensifyFit.ComposeGrows` | tools/densify_summaries.py:103-105 | a longer prefix never composes to a shorter text |
| `DensifyFit.FitRespectsCap` | tools/densify_summaries.py:106-107 | the result is within the cap if and only if the words before the tail, stripped, fit on their own, or with the first entry behind them |
| `DensifyFit.TrimsLongTails` | tools/densify_summaries.py:105-109 | an entry is dropped if and only if the whole tail does not fit |
| `DensifyFit.FitKeepsHead` | tools/densify_summaries.py:107 | the words before the tail survive unless they end in the stripped characters |
| `DensifyFit.FitOverflows` | tools/densify_summaries.py:102-109 | a call that ends over its cap |
| `DensifyFit.CleanedEntries` | tools/densify_summaries.py:100 | cleaned entries are not empty, carry no comma and no blank end |
| `DensifyFit.SplitIs` | tools/densify_summaries.py:100 | the parts joined at commas are the tail, and no part has one |
| `DensifyFit.EntriesKeepAll` | tools/densify_summaries.py:100 | each part stands for itself, stripped, in its place, unless nothing is left of it |

## Left out

- The governance engine (`govern`, `serve`, `retrieve`, `measure`), scoring and statistics.
- Fuse ranking, dagre geometry, zod parsing, `String(...)` and label copy are parameters: any function will do.
- `localeCompare` is any total and transitive comparison of ids (`Orders`).
- React: state cells are fields, handlers see the latest render, a timer is a value that fires one tick at a time; network, storage and hook plumbing are not part of this model.
- Chat.EveryRunIsSound: message ids come from the counter branch of `nextId`; `crypto.randomUUID` is not part of this model.
- Chat.ChatHook.DoSend: the question patterns, fixtures and scripted events are parameters, not the literal tables.
- Characters are code points; lengths that the source compares with a constant count UTF-16 units, and an ill-formed surrogate half is not representable.
- LayoutCache.SignatureIsInjective: sizes and separations are integers, where the source allows any number.
- ErScope.TruncationStaysConnected: needs the ends of edges to be nodes; `ErScope.KeptAtItsDistance` is the exact form.
- Both graph payloads share one node and one edge type; fields that no rule reads are dropped.
- KgScope.ApplyKnowledgeGraphScope: the order of a set before it is sorted is any order.
- Transcript.OneAnswerPerQuestion: frames without a parsed `governed_bi` stamp; a stamped frame shows its own card whatever surrounds it.
- CapturedTurns.SettledTurnsChange: one thread at a time, and the clarification facts are fixed; `CapturedTurns.OtherFactsDoNotShow` is what a new fact may not do.
- EvalResume.EvalDriver.DoLaunch: the identity check on kept rows is one verdict, apart from stale question ids, which are modelled; the abort on sibling artifacts and the question filters before it are not part of this model.
- EvalResume.EveryRunIsSound: whole-line writes; an unreadable line, a torn rewrite and two processes on one file are not reachable here, though reading handles unreadable lines.
- EvalResume.EvalDriver.DoOnRow: rows arrive one at a time, as the lock ensures, in any order; progress printing is dropped.
- SummaryBlocks.SummaryBlocks: lines carry no newline, and `\d` is an ASCII digit.
- DensifyFit.Fit: `content_words`, `_untruncated`, `dense_schema` and `dense_table` around it would only add straight-line members.
- `summarizeSteps`, `buildStepsFromLedger`, tallies, structured filters, `annotateNodeSchemas`, `withDefaultBudget`, `filterSummaryItems`: single-expression helpers.
- That a formatted statement means the same to a database: the promise is equality under the tokenizer of the source, which splits runs such as `->>` or `1e5`.
