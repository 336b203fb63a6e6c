# Verified models of the ccode core

Dafny models of the parts of ccode that rewrite conversations, move protocol
bytes, overlay configuration, store compacted segments, keep the bill and list
subagents, with proofs of what they promise. `dafny verify dfyconfig.toml` checks
the whole project. Nothing was executed: every statement below is a theorem about
the model, for all inputs or all runs.

## The components

- **Conversation repair** (`Conversation`, `Pairing`, `HistoryRepair`,
  `RepairPasses`, `RepairLaws`, `RepairContents`, `Sanitizer`). A
  conversation is a sequence of items. A provider wants every tool result in the run right after the assistant
  that declared the call, one result for each call (strict pairing); the
  compaction path checks that the owner is somewhere before (weak pairing). The
  three repair passes are methods on sequences, each proved equal to a recursive
  function; the laws are proved about those.
- **Budget fitting** (`BudgetFit`, `FitContents`, `FitLimit`, `Truncation`, `Utf8`,
  `Decimal`): the longest affordable suffix or a truncated last turn, cutting a text
  at a character boundary with a marker, and when the limit is met. The cost
  of an item is an arbitrary function except where a number needs the program's own estimate.
- **Summaries and queries** (`Text`, `SummaryFormat`, `SummaryLaws`,
  `SummaryWhole`, `SummaryPeel`, `QueryTags`): string transducers over control tags.
- **Compaction** (`Compaction`, `CaptureLaws`, `CompactionWitness`): what is
  captured, the history it is rebuilt into, and what a second compaction sees.
- **Line reader** (`LineReader`, `LineBuffer`, `LineClient`): the capped line reader,
  the task that fills a bounded queue, and the reader that drains it, as a class
  refining one state machine.
- **Gateway** (`Gateway`, `GatewayOutcomes`): send, dispatch, finish, reply,
  abort, close and drain steps in any interleaving.
- **Configuration** (`ConfigOverlay`, `Campaigns`, `CampaignDismissal`): tree
  merge, the path-touch test, campaign priority, dismissal and requirement layers.
- **Segment store** (`SegmentNames`, `SegmentRender`, `SegmentDocument`,
  `SegmentCap`): names and paths of segments, and what a rendered one holds and how
  long it is.
- **Billing ledger** (`Usage`, `LedgerLaws`, `SaturatingSum`, `LedgerOrder`,
  `LedgerTree`, `LedgerReport`, `UsageLedger`): saturating totals
  over every run, sessions with nested subagents, and the object that keeps them, whose ghost history ties it to
  the runs.
- **Subagents** (`SubagentMerge`, `SubagentResolution`, `SubagentLaws`): the list
  that is shown against the name that is resolved.
- `Sequences` holds the facts about sequences that several components share.

## Where code and documentation disagree

The models follow the code. Each case has a witness and the exact condition.

- `repair_history` is documented as idempotent and as ending strictly paired. It
  is, exactly when no assistant declares an unanswered id twice
  (`RepairPairs`, `RepairIdempotent`, `RepeatedCallWitness`).
- `fit_conversation_to_budget` is said to shrink a conversation to `max_tokens`. It
  returns more whenever the last turn has to be truncated and cannot be: the kinds
  truncation leaves alone, an owner over the budget, several long texts
  (`FitMeetsLimit` has the exact condition; `UntouchedTailExceeds`,
  `LargeOwnerExceeds`, `LongPartsExceed`, `ReasoningWitness`).
- `truncate_text_to_bytes` is named for a limit it can exceed
  (`TruncationFits`, `TruncationCanGrow`).
- A rendered segment is said to stay under its cap; the separators between turns
  are not charged, so this holds up to 75 turns, and beyond only if fewer fit
  (`CapHoldsExactly`, `CapByTurnCount`, `ShortTurnsWitness`).
- Compaction keeps the last query only if it is stable under tag stripping
  (`CompactionFixpoint`, `UnstableQueryIsLost`).
- The visible subagents are said to be the callable ones. A home definition with
  the name of an unadvertised built-in profile is not, nor is one whose file has
  another name (`AllVisibleCallable`, `ProfileNameClashes`, `MisnamedIsNotCallable`).

## Model

| member | source | states |
|---|---|---|
| Pairing.StrictImpliesWeak | crates/codegen/ccode-chat/src/compaction_utils.rs:891-919 | a history in which every result sits in the run right after its owner also has every owner somewhere before its result |
| Pairing.StrictConcat | crates/codegen/ccode-chat/src/compaction_utils.rs:1004-1041 | the cut law: strict pairing of a concatenation is strict pairing of the parts when the second does not begin with a result |
| Pairing.StrictBlock | crates/codegen/ccode-chat/src/compaction_utils.rs:1004-1041 | for one assistant and its run, strict pairing is that the run answers exactly the declared ids, each once |
| RepairPasses.MarkStale | crates/codegen/ccode-sampling-types/src/conversation.rs:3006-3062 | the scan with its last-seen map marks exactly the results that have a later one of the same id |
| RepairPasses.RemoveStale | crates/codegen/ccode-sampling-types/src/conversation.rs:3006-3062 | removing the marked results from the back leaves the last result of each id, in order |
| RepairPasses.DedupDuplicateToolResults | crates/codegen/ccode-sampling-types/src/conversation.rs:3006-3062 | the rescanning loop computes the per-run last-wins pass, and the count is how much shorter the history got |
| RepairPasses.StripDisplacedToolResults | crates/codegen/ccode-chat/src/compaction_utils.rs:1015-1041 | the filter with its running id set computes the second pass and lists the ids it dropped, in order |
| RepairPasses.FindDangling | crates/codegen/ccode-sampling-types/src/conversation.rs:2879-2939 | phase one finds, for each assistant with unanswered calls, the position after its run and the synthetic results that belong there |
| RepairPasses.RepairDanglingToolCalls | crates/codegen/ccode-sampling-types/src/conversation.rs:2879-2939 | splicing these sites in from the back computes the third pass, and the count is how much longer the history got |
| RepairPasses.RepairHistory | crates/codegen/ccode-chat/src/compaction_utils.rs:989-1003 | the three passes in order compute the composed repair and its report |
| HistoryRepair.RepairBlock | crates/codegen/ccode-chat/src/compaction_utils.rs:983-1041 | composed, the passes rewrite each assistant run on its own; stripping never merges two runs |
| HistoryRepair.SynthesizeIds | crates/codegen/ccode-sampling-types/src/conversation.rs:2879-2939 | the synthetic results answer exactly the ids that had no result |
| HistoryRepair.SynthesizeDistinct | crates/codegen/ccode-sampling-types/src/conversation.rs:2879-2939 | they are pairwise distinct exactly when every id declared twice already had a result |
| RepairLaws.RepairPairs | crates/codegen/ccode-chat/src/compaction_utils.rs:983-1003 | for every history, the repaired one is strictly paired if and only if every id one assistant declares twice was answered in its run |
| RepairLaws.QuietReportIffPaired | crates/codegen/ccode-chat/src/compaction_utils.rs:966-982 | the report is all zero if and only if the history was strictly paired |
| RepairLaws.PairedIsFixed | crates/codegen/ccode-chat/src/compaction_utils.rs:983-1003 | a strictly paired history is returned unchanged |
| RepairLaws.RepairIdempotent | crates/codegen/ccode-chat/src/compaction_utils.rs:983-1003 | a second run is quiet and changes nothing if and only if the same condition holds; a third run never changes anything |
| RepairLaws.ChangedIsHonest | crates/codegen/ccode-chat/src/compaction_utils.rs:966-982 | `changed()` is set if and only if the history was rewritten |
| RepairLaws.RepeatedCallWitness | crates/codegen/ccode-sampling-types/src/conversation.rs:2879-2939 | an assistant that declares one unanswered id twice: a second run still changes the history and reports it |
| RepairLaws.RepairAnswersRepeats | crates/codegen/ccode-chat/src/compaction_utils.rs:983-1003 | whatever the input, the repaired history answers the ids it declares twice |
| RepairLaws.RepairKeepsOthers | crates/codegen/ccode-chat/src/compaction_utils.rs:983-1003 | every item that is not a tool result stays, in order |
| RepairLaws.LastAnswersSurvive | crates/codegen/ccode-chat/src/compaction_utils.rs:983-1003 | every answered call keeps its last real answer, still owned by the same assistant |
| RepairContents.DedupRemovesSuperseded | crates/codegen/ccode-sampling-types/src/conversation.rs:3006-3062 | by position: the first pass keeps, in order, exactly the items that no later result of the same run supersedes |
| RepairContents.StripRemovesOrphans | crates/codegen/ccode-chat/src/compaction_utils.rs:1004-1041 | by position: the second pass keeps, in order, exactly the items that are no result without an owner in whose run they stand, and reports the ids of those, in order |
| RepairContents.RepairedBlockHolds | crates/codegen/ccode-chat/src/compaction_utils.rs:983-1041 | the run of an assistant becomes the last answer to each of its calls, in their order, followed by a halted result with its wording, in call order, for each call without one |
| RepairContents.ReportCounts | crates/codegen/ccode-chat/src/compaction_utils.rs:966-1003 | the report counts the superseded results and the orphans among the rest, and accounts for the length of the repaired history |
| Sanitizer.ValidateCompactedHistory | crates/codegen/ccode-chat/src/compaction_utils.rs:900-919 | the loop lists the results with no declared call before them, and none if and only if the history is weakly paired |
| Sanitizer.SanitizeCompactedHistory | crates/codegen/ccode-chat/src/compaction_utils.rs:936-963 | the loop keeps everything but the listed results and lists them |
| Sanitizer.ValidIffWeaklyPaired | crates/codegen/ccode-chat/src/compaction_utils.rs:891-919 | the check reports nothing if and only if each result has an earlier owner |
| Sanitizer.SanitizedIsWeaklyPaired | crates/codegen/ccode-chat/src/compaction_utils.rs:921-963 | the sanitized history is weakly paired, is unchanged exactly when the check is silent, and a second pass changes nothing |
| Sanitizer.RepairedIsWeaklyPaired | crates/codegen/ccode-chat/src/compaction_utils.rs:983-1003 | whatever the input, a repaired history passes the weak check |
| RepairContents.SanitizerRemovesUndeclared | crates/codegen/ccode-chat/src/compaction_utils.rs:891-963 | by position: the sanitizer keeps, in order, exactly the items that are no result without a declaring call before them, and the check lists the ids of those, in order |
| BudgetFit.SumTokens | crates/codegen/ccode-chat/src/compaction_utils.rs:128-140 | the running sum is the cost of the conversation |
| BudgetFit.PopResults | crates/codegen/ccode-chat/src/compaction_utils.rs:163-175 | popping from the back yields the body without its trailing run and that run in order |
| BudgetFit.RecoverTruncatedTailUnit | crates/codegen/ccode-chat/src/compaction_utils.rs:163-195 | the truncated last turn: the trailing results with their owner, each cut to its share, or else the last item cut to the budget |
| BudgetFit.FindAffordable | crates/codegen/ccode-chat/src/compaction_utils.rs:142-151 | the backward scan finds the start of the longest affordable suffix |
| BudgetFit.SkipResults | crates/codegen/ccode-chat/src/compaction_utils.rs:152-154 | the forward scan skips exactly the results at the front |
| BudgetFit.FitConversationToBudget | crates/codegen/ccode-chat/src/compaction_utils.rs:128-161 | the whole procedure computes the specified fit |
| BudgetFit.AffordableIsLongest | crates/codegen/ccode-chat/src/compaction_utils.rs:142-151 | the suffix fits the budget and every longer one does not |
| BudgetFit.KeptIsLongestSuffix | crates/codegen/ccode-chat/src/compaction_utils.rs:142-161 | what is kept of the body is the longest affordable suffix without its leading results |
| BudgetFit.RecoverKeepsPairing | crates/codegen/ccode-chat/src/compaction_utils.rs:163-195 | the truncated last turn of a strictly paired body is strictly paired and does not begin with a result |
| BudgetFit.FitKeepsPairing | crates/codegen/ccode-chat/src/compaction_utils.rs:128-195 | a strictly paired conversation stays strictly paired on every branch, keeps a leading system item, and its body never begins with a result |
| BudgetFit.ShapeDecidesPairing | crates/codegen/ccode-chat/src/compaction_utils.rs:197-224 | truncating contents does not change strict pairing |
| FitLimit.SuffixBranch | crates/codegen/ccode-chat/src/compaction_utils.rs:142-160 | nothing is truncated if and only if the last non-result item with the results after it fits the budget |
| FitLimit.LimitByBranch | crates/codegen/ccode-chat/src/compaction_utils.rs:127-161 | for every cost function: a conversation within the limit is returned unchanged, and the limit is met if and only if it was, or the system item is within it and the last turn fits the rest as it is or truncated |
| FitLimit.FitMeetsLimit | crates/codegen/ccode-chat/src/compaction_utils.rs:127-224 | with the program estimate, the limit is met if and only if a condition on the byte lengths of the input holds |
| FitLimit.CutTailOf | crates/codegen/ccode-chat/src/compaction_utils.rs:163-224 | the estimate of the truncated last turn is a function of the byte lengths and character boundaries of the input |
| FitLimit.CutTokensOf | crates/codegen/ccode-chat/src/actor/state.rs:42-80 | the same for one item, by kind: results and assistant content are cut, calls are not, each text part is cut on its own, other kinds are left alone |
| FitLimit.UntouchedTailExceeds | crates/codegen/ccode-chat/src/compaction_utils.rs:222-223 | for every cost function: a last system, reasoning or backend-call item over the budget leaves the result over the limit, by its whole cost |
| FitLimit.LargeOwnerExceeds | crates/codegen/ccode-chat/src/compaction_utils.rs:177-194 | for every cost function: trailing results whose owner is over the budget leave the result over the limit |
| FitLimit.LongPartsExceed | crates/codegen/ccode-chat/src/compaction_utils.rs:212-221 | a last user item with two texts over the budget leaves the result over the limit, whatever the budget |
| FitLimit.ReasoningWitness | crates/codegen/ccode-chat/src/compaction_utils.rs:127-161 | one reasoning item and no room: the conversation comes back whole |
| FitLimit.TailStaysNearBudget | crates/codegen/ccode-chat/src/compaction_utils.rs:163-224 | by how much the truncated last turn can miss the budget, for every kind of last item and texts of any length |
| FitLimit.RoomyMeetsLimit | crates/codegen/ccode-chat/src/compaction_utils.rs:127-224 | sixteen tokens for each text that is cut, lengths below 10^8 and nothing else in the turn but the owner: the limit is met |
| FitContents.FitIsLongestSuffix | crates/codegen/ccode-chat/src/compaction_utils.rs:127-161 | over the limit, what is left is the system item and the longest suffix that the rest of the limit pays for and that begins with no result |
| FitContents.FitIsCutTail | crates/codegen/ccode-chat/src/compaction_utils.rs:127-195 | where there is none: the system item, then the last item cut, or the results at the end, each cut to an equal share of what their caller leaves, behind that caller |
| FitContents.FitKeepsHead | crates/codegen/ccode-chat/src/compaction_utils.rs:127-161 | a system item alone is kept, whatever it costs |
| FitContents.ItemIsCut | crates/codegen/ccode-chat/src/compaction_utils.rs:197-224 | a cut result keeps its id and images, an assistant its calls, a user item its reason, its images and the order of its parts; other kinds stay as they are |
| FitContents.TextIsCut | crates/codegen/ccode-chat/src/compaction_utils.rs:226-241 | a text over the limit becomes as many characters as fit with 64 bytes to spare and the marker with the number of bytes missing |
| Truncation.TruncateTextToBytes | crates/codegen/ccode-chat/src/compaction_utils.rs:226-241 | stepping back byte by byte keeps exactly the whole characters within the offset and appends the marker with the bytes dropped |
| Truncation.TruncationCut | crates/codegen/ccode-chat/src/compaction_utils.rs:226-241 | the cut is at a character boundary at most three bytes below the offset; the output has the bytes of the prefix, 56, and the digits of the count |
| Truncation.TruncationFits | crates/codegen/ccode-chat/src/compaction_utils.rs:226-241 | exactly when the output is within `max_bytes`, for limits of 64 and more and for limits below 64 |
| Truncation.OutputLength | crates/codegen/ccode-chat/src/compaction_utils.rs:226-241 | the length of the output, read off the length of the input and the boundary below the offset |
| Truncation.TruncationFitsUsually | crates/codegen/ccode-chat/src/compaction_utils.rs:226-241 | from 64 bytes on the limit holds while fewer than 10^8 bytes are dropped |
| Truncation.TruncationCanGrow | crates/codegen/ccode-chat/src/compaction_utils.rs:226-241 | a text of at most 56 bytes that is over the limit gets longer, not shorter |
| Utf8.CharsWithinIsLastBoundary | crates/codegen/ccode-chat/src/compaction_utils.rs:226-241 | the whole characters within k bytes end at the last character boundary at or below k (section 3 of RFC 3629) |
| Utf8.PrefixSplitsBytes | crates/codegen/ccode-chat/src/compaction_utils.rs:226-241 | cutting after a whole prefix of characters splits no character |
| SummaryFormat.StripAnalysisBlocks | crates/codegen/ccode-chat/src/compaction_utils.rs:636-660 | the loop terminates and removes leading scratchpads, closed ones one after another, an unclosed one up to the summary or the end |
| SummaryFormat.CollapseBlankLines | crates/codegen/ccode-chat/src/compaction_utils.rs:670-674 | repeated replacement of three newlines by two ends in the text with every newline run capped at two |
| SummaryFormat.FormatCompactSummary | crates/codegen/ccode-chat/src/compaction_utils.rs:636-674 | the stages in order compute the specified formatting, for every input |
| SummaryFormat.FormatIsClean | crates/codegen/ccode-chat/src/compaction_utils.rs:636-709 | for every input the output is trimmed, has none of the six control tags and no three newlines in a row |
| SummaryFormat.CleanIsFixed | crates/codegen/ccode-chat/src/compaction_utils.rs:636-709 | a clean text is returned as it is |
| SummaryFormat.FormatIdempotent | crates/codegen/ccode-chat/src/compaction_utils.rs:636-709 | formatting twice is formatting once |
| SummaryFormat.NeutralizeRemoves | crates/codegen/ccode-chat/src/compaction_utils.rs:702-709 | defusing the tags one after another leaves none of them: a later replacement never recreates an earlier tag |
| SummaryFormat.NeutralizeCreatesNothing | crates/codegen/ccode-chat/src/compaction_utils.rs:702-709 | it creates no occurrence of a text without a zero-width space |
| SummaryFormat.CapReplace | crates/codegen/ccode-chat/src/compaction_utils.rs:670-674 | one round of the collapsing loop does not change what it converges to |
| SummaryFormat.PolishKeepsText | crates/codegen/ccode-chat/src/compaction_utils.rs:670-709 | the last stages only insert zero-width spaces and remove newlines and outer white space |
| SummaryLaws.NumberedSummarySurvives | crates/codegen/ccode-chat/src/compaction_utils.rs:626-709 | a summary whose body starts with a numbered section comes out verbatim up to polishing, even when later sections quote unbalanced control tags |
| SummaryLaws.LeadingAnalysisIsDropped | crates/codegen/ccode-chat/src/compaction_utils.rs:636-697 | a closed scratchpad in front is dropped whole |
| SummaryLaws.DraftThenSummary | crates/codegen/ccode-chat/src/compaction_utils.rs:636-697 | scratchpad, then a numbered summary: exactly the summary body is kept |
| SummaryPeel.LeadsIff | crates/codegen/ccode-chat/src/compaction_utils.rs:636-644 | which `<analysis>` leads: one with a `<summary>` still to come, right behind the first one, or with nothing in front where there is none |
| SummaryPeel.QuotedStays | crates/codegen/ccode-chat/src/compaction_utils.rs:636-647 | a scratchpad that does not lead stays, and the whole text with it |
| SummaryPeel.ClosedIsDropped | crates/codegen/ccode-chat/src/compaction_utils.rs:636-651 | a closed leading scratchpad goes, up to its first closing tag, and the search starts again on the rest |
| SummaryPeel.UnclosedIsDropped | crates/codegen/ccode-chat/src/compaction_utils.rs:652-660 | an unclosed leading scratchpad goes, up to the `<summary>` after it or else to the end, and the search ends |
| SummaryPeel.UnclosedBeforeSummary | crates/codegen/ccode-chat/src/compaction_utils.rs:652-674 | an unclosed scratchpad does not take the summary with it; the result is that of formatting the rest alone when the rest does not lead with a scratchpad again, and the search would go on there if and only if it does |
| SummaryPeel.SearchEnds | crates/codegen/ccode-chat/src/compaction_utils.rs:652-660 | it does not always agree with formatting the rest alone: a second unclosed scratchpad right behind the summary tag stays where a first one was dropped |
| SummaryPeel.UnclosedThenNumbered | crates/codegen/ccode-chat/src/compaction_utils.rs:652-697 | the numbered summary behind an unclosed scratchpad comes out verbatim up to polishing |
| SummaryPeel.OnlyScratchpad | crates/codegen/ccode-chat/src/compaction_utils.rs:652-660 | nothing is left of a text that is all unclosed scratchpad |
| SummaryPeel.InnerDraftIsDropped | crates/codegen/ccode-chat/src/compaction_utils.rs:661-697 | inside the summary block a draft up to the last `</analysis>` is dropped, with a wrapper left over behind it, unless the block leads with a numbered section |
| SummaryPeel.InnerTextIsKept | crates/codegen/ccode-chat/src/compaction_utils.rs:661-697 | without such a draft only a second wrapper goes |
| SummaryWhole.LeftWholeIff | crates/codegen/ccode-chat/src/compaction_utils.rs:636-668 | the stages before polishing leave a text whole if and only if it has neither a leading scratchpad nor a summary block |
| SummaryWhole.RawNumberedSurvivesIff | crates/codegen/ccode-chat/src/compaction_utils.rs:626-668 | raw text that leads with a numbered section and has no summary block is left whole if and only if it does not quote `<analysis>` in front of its first `<summary>` |
| Text.ReplaceCreatesNothing | crates/codegen/ccode-chat/src/compaction_utils.rs:702-709 | a replacement that splits its pattern by a character creates no occurrence of a text without that character |
| Text.DefuseRemoves | crates/codegen/ccode-chat/src/compaction_utils.rs:702-709 | inserting a character after the `<` of every occurrence of a tag leaves no occurrence, for every input |
| QueryTags.StripSystemTagsLoop | crates/codegen/ccode-chat/src/compaction_utils.rs:260-275 | the nested loops terminate and compute the tag-by-tag stripping |
| QueryTags.StripTagLaw | crates/codegen/ccode-chat/src/compaction_utils.rs:260-275 | stripping a tag changes a text if and only if it has a closed block of it, and leaves no closed block behind |
| QueryTags.StableIffFixed | crates/codegen/ccode-chat/src/compaction_utils.rs:260-275 | stripping leaves a trimmed text alone if and only if it has no closed block of any system tag |
| QueryTags.ExtractIsTrimmed | crates/codegen/ccode-chat/src/compaction_utils.rs:281-290 | an extracted query is always trimmed |
| QueryTags.WrapRoundTrip | crates/codegen/ccode-chat/src/compaction_utils.rs:281-290 | a trimmed query comes back out of its wrapper if and only if it has no closed system block and no closing query tag |
| CaptureLaws.BlockIsStripped | crates/codegen/ccode-chat/src/compaction_utils.rs:260-275 | stripping drops each closed block with what it holds and goes on with what stood around it |
| CaptureLaws.TaggedQuery | crates/codegen/ccode-chat/src/compaction_utils.rs:281-290 | a tagged query is what stands between the first pair of tags, whatever surrounds it |
| CaptureLaws.UntaggedQuery | crates/codegen/ccode-chat/src/compaction_utils.rs:281-290 | without a closed pair of query tags the whole text is the query |
| CaptureLaws.PlainQuery | crates/codegen/ccode-chat/src/compaction_utils.rs:281-290 | text without a tag is its own query, trimmed |
| CaptureLaws.TextOfParts | crates/codegen/ccode-sampling-types/src/conversation.rs:1229-1240 | the text of an item: its text parts on lines of their own, images left out |
| CaptureLaws.ImageTurnIsReal | crates/codegen/ccode-chat/src/compaction_utils.rs:351-369 | an item with an image is a real turn if and only if it is not synthetic, whatever it says |
| CaptureLaws.PlainTurnIsReal | crates/codegen/ccode-chat/src/compaction_utils.rs:329-369 | a plain text is a real turn unless it is blank or one of the two continuation texts |
| Compaction.BuildCompactedHistory | crates/codegen/ccode-chat/src/compaction_utils.rs:839-882 | the pushes build, by position: system, prefix, the instructions of the working directory if given, the last query in its wrapper if there is one, the recent messages, the preamble with the formatted summary and the hint, the reminder if given; and nothing else |
| CaptureLaws.LayoutIsUnique | crates/codegen/ccode-chat/src/compaction_utils.rs:839-882 | that layout leaves no choice: it determines the history |
| CaptureLaws.CapturesLastTurn | crates/codegen/ccode-chat/src/compaction_utils.rs:445-465 | with the last real user turn known, the captured query is its query and the captured messages are exactly the assistants and results after it, in order, assistants whole and results reduced to their id and a placeholder |
| CaptureLaws.CapturesEverything | crates/codegen/ccode-chat/src/compaction_utils.rs:445-465 | without a real user turn there is no query and the whole conversation is recent |
| Compaction.Recapture | crates/codegen/ccode-chat/src/compaction_utils.rs:445-465 | what a capture of a rebuilt history reads back, for any captured context |
| Compaction.CompactionFixpoint | crates/codegen/ccode-chat/src/compaction_utils.rs:577-589 | capturing the compacted history gives back the recent messages always, and the last query if and only if it is absent, or is not synthetic, has no closed system block and no `</user_query>` |
| Compaction.CompactedReports | crates/codegen/ccode-chat/src/compaction_utils.rs:839-919 | the check of the compacted history lists exactly the results whose owner is not before them in the tail |
| Compaction.CompactedIsValid | crates/codegen/ccode-chat/src/compaction_utils.rs:839-919 | if every owner precedes its result with no real user turn in between, the compacted history passes the check |
| Compaction.StrictIsOwnedWithinTurn | crates/codegen/ccode-chat/src/compaction_utils.rs:445-465 | strict pairing implies that hypothesis, so compacting a strictly paired history orphans no result |
| Compaction.RawBoundaryOrphans | crates/codegen/ccode-chat/src/compaction_utils.rs:410-429 | with the older boundary at any user item the hypothesis does not suffice |
| CompactionWitness.UnstableQueryIsLost | crates/codegen/ccode-chat/src/compaction_utils.rs:260-290 | a real user turn whose query is lost by compacting twice, because stripping one tag uncovers another |
| LineReader.ReadLineCapped | crates/codegen/ccode-acp/src/line_reader.rs:140-177 | the accumulating loop computes the specified outcome and the source left over |
| LineReader.ReadLineLaw | crates/codegen/ccode-acp/src/line_reader.rs:140-177 | whatever the refills, the outcome is the one the bytes prescribe, and after a line exactly the rest of the bytes remain |
| LineReader.LinesFromBytes | crates/codegen/ccode-acp/src/line_reader.rs:71-94 | the lines sent depend on the bytes and on whether an error occurs, not on the refills |
| LineReader.DeliverableIsPrefix | crates/codegen/ccode-acp/src/line_reader.rs:71-94 | what is sent is a prefix of the bytes, and all of them if and only if no line exceeds the cap and no error cuts one short |
| LineReader.LinesAreGood | crates/codegen/ccode-acp/src/line_reader.rs:140-177 | every line sent is non-empty, has a newline only at its end and fits the cap |
| LineBuffer.LineBufferedRead.constructor | crates/codegen/ccode-acp/src/line_reader.rs:62-94 | a fresh reader has an empty queue and buffer |
| LineBuffer.LineBufferedRead.ReaderTaskRound | crates/codegen/ccode-acp/src/line_reader.rs:71-84 | one round of the task is the producer step: a line, an error that ends the task, or the end |
| LineBuffer.LineBufferedRead.PollInto | crates/codegen/ccode-acp/src/line_reader.rs:96-132 | one poll is the consumer step; it writes exactly the served bytes to the front of the caller buffer and nothing behind them |
| LineBuffer.ReaderRefinesStream | crates/codegen/ccode-acp/src/line_reader.rs:62-132 | over every interleaving of task rounds and polls of any size: what was served is a prefix of the stream, a pending poll is at the end of a sent line, an empty read or an error comes only after everything deliverable |
| LineBuffer.PollServesCurrentLine | crates/codegen/ccode-acp/src/line_reader.rs:96-132 | in every reachable state a poll that serves bytes serves the current line from where the last one stopped, as much as there is room for or up to its end |
| LineBuffer.WholeStreamAtEof | crates/codegen/ccode-acp/src/line_reader.rs:62-132 | without errors and over-long lines, end of file means the whole stream was served |
| LineClient.RefillsDoNotMatter | crates/codegen/ccode-acp/src/line_reader.rs:140-177 | two sources with the same bytes, however cut into refills: the same polls serve the same bytes and see the same next result, and the stream ends in the same error |
| LineBuffer.PendingMeansTaskCanRun | crates/codegen/ccode-acp/src/line_reader.rs:96-132 | a pending poll is never stuck: the task can take a round, after which the poll is ready |
| LineClient.EndingFromBytes | crates/codegen/ccode-acp/src/line_reader.rs:71-94 | which error ends the stream is told from the bytes: the first line over the cap, or else the error of the source |
| LineClient.NoEndingIff | crates/codegen/ccode-acp/src/line_reader.rs:71-94 | there is none if and only if the source has none and every line fits the cap |
| LineClient.PollKeepsError | crates/codegen/ccode-acp/src/line_reader.rs:96-132 | a poll reports the pending error or keeps it pending, and end of file is seen only when there is none |
| LineClient.ReadToEnd | crates/codegen/ccode-acp/src/line_reader.rs:96-132 | a client that keeps polling terminates with exactly the deliverable bytes and exactly the error that ended the stream |
| Gateway.RunInv | crates/codegen/ccode-acp/src/gateway.rs:144-231 | over every interleaving: each accepted request is in exactly one of queued, running, finished, answered, dropped; replies are honest; effects happen once |
| Gateway.OutcomesAreSound | crates/codegen/ccode-acp/src/channel.rs:34-59 | a send ends in its own handler response, SendFailed (never accepted) or RecvFailed (accepted, never answered); while it waits the request is queued, running or finished |
| GatewayOutcomes.SendFailsIffClosed | crates/codegen/ccode-acp/src/channel.rs:34-59 | the request sent next fails to be sent if and only if the loop was closed before, and stays so; otherwise it is accepted and queued last |
| GatewayOutcomes.CloseFailsTheQueue | crates/codegen/ccode-acp/src/gateway.rs:144-231 | closing fails with RecvFailed every request that is queued, and nothing else: handlers in flight go on |
| GatewayOutcomes.TakenInSendingOrder | crates/codegen/ccode-acp/src/gateway.rs:144-231 | the loop takes requests up in the order they were sent |
| GatewayOutcomes.AnswerIsTheHandlers | crates/codegen/ccode-acp/src/gateway.rs:122-141 | over every run: an answer is what the handler of that request returned in this run |
| GatewayOutcomes.WaitingCanBeAnswered | crates/codegen/ccode-acp/src/gateway.rs:122-231 | from every reachable state a request still waiting can be answered, with anything its handler may return if that has not finished |
| GatewayOutcomes.InFlightCanFail | crates/codegen/ccode-acp/src/channel.rs:34-59 | once its handler is spawned and until the reply is sent, a request can still end in RecvFailed |
| GatewayOutcomes.DrainWaitsForAll | crates/codegen/ccode-acp/src/gateway.rs:315-347 | draining a batch leaves its mark if and only if every request of it has come back, and the mark confirms the answered ones |
| Gateway.AnsweredAtMostOnce | crates/codegen/ccode-acp/src/gateway.rs:122-141 | an outcome, once there, is not changed by any later steps |
| Gateway.DrainedBatchPrecedesMark | crates/codegen/ccode-acp/src/gateway.rs:315-347 | after draining the completions of a batch with no RecvFailed, every effect of the batch precedes the mark and none follows |
| Gateway.FailedBatchWitness | crates/codegen/ccode-acp/src/gateway.rs:315-347 | with a RecvFailed the mark can come without the effect |
| Gateway.AnsweredPrecedesLater | crates/codegen/ccode-acp/src/gateway.rs:315-347 | over every interleaving: a request sent after the completion of another was answered takes effect after it |
| Gateway.InFlightIsUnordered | crates/codegen/ccode-acp/src/gateway.rs:144-231 | nothing less orders them: two handlers in flight may take effect either way round |
| Gateway.OutOfOrderWitness | crates/codegen/ccode-acp/src/gateway.rs:144-231 | a run from the start in which the later request takes effect first |
| ConfigOverlay.PatchTouchesPath | crates/codegen/ccode-config/src/config_override.rs:53-71 | the walk with its cursor computes the touch test |
| ConfigOverlay.DeepMerge | crates/codegen/ccode-config/src/loader.rs:419-434 | merging key by key computes the recursive merge |
| ConfigOverlay.ApplyPatches | crates/codegen/ccode-config/src/config_override.rs:90-101 | stripping and merging one patch after another computes the fold |
| ConfigOverlay.LookupMerge | crates/codegen/ccode-config/src/loader.rs:419-434 | what a merge leaves at a path, for every pair of trees and every path, tables against scalars included |
| ConfigOverlay.LaterPatchOnTop | crates/codegen/ccode-config/src/config_override.rs:90-101 | a later patch is merged on top of the earlier ones, without its stripped keys |
| ConfigOverlay.TouchIsExact | crates/codegen/ccode-config/src/config_override.rs:53-71 | a patch touches a path if and only if it changes the value there for some configuration; so an untouched path keeps its value in every configuration |
| ConfigOverlay.MergeTwice | crates/codegen/ccode-config/src/loader.rs:419-434 | merging the same overrides again changes nothing |
| ConfigOverlay.MergeIsNotAssociative | crates/codegen/ccode-config/src/loader.rs:419-434 | patches cannot be merged with each other first |
| Campaigns.MergeCampaignEntries | crates/codegen/ccode-config/src/campaigns.rs:75-87 | the loop with its seen set keeps the first entry of each id over all sources |
| Campaigns.MergeLaws | crates/codegen/ccode-config/src/campaigns.rs:75-98 | for any number of sources: merged ids are distinct, nothing is invented, first in priority order wins, and dismissing commutes with merging |
| Campaigns.MergedInOrder | crates/codegen/ccode-config/src/campaigns.rs:75-87 | by position: the merged list is, in priority order, exactly the first entry of each id |
| Campaigns.FirstIsKept | crates/codegen/ccode-config/src/campaigns.rs:75-87 | the entry kept for an id is its first one |
| Campaigns.ApplyActiveCampaignPatches | crates/codegen/ccode-config/src/campaigns.rs:112-118 | applying in reverse priority order computes the overlay |
| Campaigns.UntouchedKeepsBase | crates/codegen/ccode-config/src/campaigns.rs:102-118 | entries that do not touch a path leave the base value there |
| Campaigns.DismissalRestores | crates/codegen/ccode-config/src/campaigns.rs:90-118 | once all ids touching some paths are dismissed, the base value is back at each of them |
| CampaignDismissal.ListedIffChanging | crates/codegen/ccode-config/src/campaigns.rs:102-108 | an id is listed if and only if some active entry of that id changes, in some configuration, the value at one of the paths |
| CampaignDismissal.IdsTouchingNext | crates/codegen/ccode-config/src/campaigns.rs:102-108 | ids are listed in order, once for each such entry |
| CampaignDismissal.StaysIffNotDismissed | crates/codegen/ccode-config/src/campaigns.rs:90-98 | exactly the entries whose id is not dismissed stay active |
| CampaignDismissal.OnlyChangingAreDismissed | crates/codegen/ccode-config/src/campaigns.rs:90-108 | once the listed ids are dismissed, an entry stays if and only if no entry of its id changes one of the paths |
| CampaignDismissal.DismissalIsLocal | crates/codegen/ccode-config/src/campaigns.rs:90-118 | a path that no dismissed entry touches keeps the value it had before the dismissal |
| Campaigns.StrippedKeysAreSafe | crates/codegen/ccode-config/src/config_override.rs:81-101 | no campaign changes anything below a stripped key |
| Campaigns.HighestPriorityWins | crates/codegen/ccode-config/src/campaigns.rs:112-118 | outside the stripped keys, the first entry touching a path decides it when it leaves no table there |
| Campaigns.RequirementsBeatCampaigns | crates/codegen/ccode-config/src/loader.rs:291-313 | a field pinned by a requirement layer ends up the same whatever the campaigns set |
| Campaigns.LastRequirementDecides | crates/codegen/ccode-config/src/loader.rs:291-313 | the last requirement layer that touches a path decides it when it pins it, and a path that no layer touches keeps what it had |
| SegmentNames.FilenameRoundTrip | crates/codegen/ccode-chat/src/compaction_transcript.rs:81-97 | every 64-bit index is parsed back from its filename |
| SegmentNames.FilenamesAreInjective | crates/codegen/ccode-chat/src/compaction_transcript.rs:86-88 | two segments never share a filename |
| SegmentNames.PrinterInvertsParser | crates/codegen/ccode-chat/src/compaction_transcript.rs:90-97 | printing a parsed index gives the name back if and only if its digits are canonical: no sign, at least three, no extra zero |
| SegmentNames.ClassifySegment | crates/codegen/ccode-chat/src/compaction_transcript.rs:118-141 | a path is classified as segment i if and only if it ends in `compaction/` and a name that parses to i, under any directory |
| SegmentNames.WrittenSegmentIsClassified | crates/codegen/ccode-chat/src/compaction_transcript.rs:118-141 | every filename the store writes is classified as its segment, even below directories whose names contain `compaction` |
| SegmentNames.ClassifyIndexIff | crates/codegen/ccode-chat/src/compaction_transcript.rs:118-141 | a path is classified as the index if and only if it ends in `compaction/` and its name |
| SegmentNames.ClassifyDirIff | crates/codegen/ccode-chat/src/compaction_transcript.rs:118-141 | a path is classified as the directory if and only if its last component is, with any number of trailing slashes |
| SegmentRender.WriteTurns | crates/codegen/ccode-chat/src/compaction_transcript.rs:484-496 | the loop over used bytes writes the specified prefix of turns and remembers where it stopped |
| SegmentRender.RenderSegment | crates/codegen/ccode-chat/src/compaction_transcript.rs:437-507 | the document is preamble, joined turns and, when turns are left out, the notice with their number |
| SegmentRender.RenderedIsLongest | crates/codegen/ccode-chat/src/compaction_transcript.rs:484-496 | the written turns are the longest prefix whose bytes fit the budget |
| SegmentRender.DocumentBytes | crates/codegen/ccode-chat/src/compaction_transcript.rs:478-507 | the exact length of the document: preamble, turns, one byte for each separator, and 54 plus the digits for the notice |
| SegmentDocument.TurnTells | crates/codegen/ccode-chat/src/compaction_transcript.rs:64-73 | a turn says its number, counted from zero, and who speaks, each name standing for exactly its kinds of items, then its detail |
| SegmentDocument.DocumentHolds | crates/codegen/ccode-chat/src/compaction_transcript.rs:478-507 | by position: the document holds each written turn in order, behind the preamble and the turns before it, with a newline between two |
| SegmentDocument.DocumentEnds | crates/codegen/ccode-chat/src/compaction_transcript.rs:478-507 | it begins with the preamble, and behind the last written turn comes nothing or, if and only if turns are left over, the notice with the cap and their number |
| SegmentCap.CapHoldsExactly | crates/codegen/ccode-chat/src/compaction_transcript.rs:460-507 | for any turns and any header, metadata and statistics: the document stays under the cap for every summary if and only if no number of turns that can be written has more separators and notice digits than the slack |
| SegmentCap.CapByTurnCount | crates/codegen/ccode-chat/src/compaction_transcript.rs:460-507 | so up to 75 turns it always does, and with more it does not whenever the first 75 fit beside the rest |
| SegmentCap.ShortTurnsWitness | crates/codegen/ccode-chat/src/compaction_transcript.rs:460-507 | 76 empty turns: some summary makes the document exceed the cap |
| SegmentCap.FewTurnsFit | crates/codegen/ccode-chat/src/compaction_transcript.rs:478-507 | up to 75 turns always fit, whenever preamble, notice and slack do |
| SegmentCap.OvershootIsBounded | crates/codegen/ccode-chat/src/compaction_transcript.rs:478-507 | beyond that it exceeds the cap by at most one byte for each separator, and by at most a nineteenth of the cap |
| SegmentCap.OversizedPreamble | crates/codegen/ccode-chat/src/compaction_transcript.rs:478-507 | a preamble that leaves no budget: no turn is written, and the length is preamble plus notice |
| UsageLedger.UsageLedger.constructor | crates/codegen/ccode-chat/src/usage.rs:100-109 | a new ledger has an empty history |
| UsageLedger.UsageLedger.IsBalanced | crates/codegen/ccode-chat/src/usage.rs:100-147 | at any time: every counter of the object is the saturated sum over its map, no model is listed twice, and turns do not exceed calls |
| UsageLedger.UsageLedger.RecordMainLoopCall | crates/codegen/ccode-chat/src/usage.rs:111-124 | every field of the totals and of the model entry grows by what the call spent, saturated; other models stay as they are; one turn more; and the books balance |
| UsageLedger.UsageLedger.RecordSubagent | crates/codegen/ccode-chat/src/usage.rs:126-134 | the loop extends the history by this operation, keeps the turn count and the balance, and sets the flag when told to |
| UsageLedger.UsageLedger.Absorb | crates/codegen/ccode-shell/src/agent/subagent/handle_request.rs:1642-1660 | a parent that takes over the ledger of a subagent stays balanced and has it in its history |
| UsageLedger.UsageLedger.Mark | crates/codegen/ccode-chat/src/usage.rs:136-138 | the bill stays incomplete, the amounts stay as they are and balanced |
| UsageLedger.Session | crates/codegen/ccode-chat/src/actor/mutations.rs:380-402 | a session with subagents at any depth drives its ledger object to the bill of that tree |
| UsageLedger.Report | crates/codegen/ccode-chat/src/usage.rs:100-147 | what it reports: every number as the saturated sum of what the calls at any depth have spent, the turns of the session itself, and complete if and only if nothing was missed |
| LedgerReport.BillTallies | crates/codegen/ccode-chat/src/usage.rs:45-147 | every number on the bill, read off the acts: prompt, completion, cached and reasoning tokens, calls, durations, positive costs and calls without one, overall and for each model |
| LedgerReport.TurnsAreOwnCalls | crates/codegen/ccode-chat/src/usage.rs:111-124 | the turn count is the number of the calls of the session itself, those of subagents excluded |
| LedgerReport.ModelsInOrder | crates/codegen/ccode-chat/src/usage.rs:139-146 | the map lists the models in the order in which they were first recorded |
| LedgerLaws.Conservation | crates/codegen/ccode-chat/src/usage.rs:71-147 | after every run each counter equals the saturated sum of that counter over the per-model map; so do the ticks of the cost when none is negative |
| LedgerLaws.ExactAccounts | crates/codegen/ccode-chat/src/usage.rs:71-147 | totals and each model entry are the saturated sums of exactly what was recorded, and a model is listed if and only if something was recorded for it |
| LedgerLaws.TurnsWithinCalls | crates/codegen/ccode-chat/src/usage.rs:111-147 | the turn count never exceeds the number of model calls |
| LedgerLaws.IncompleteIffStained | crates/codegen/ccode-chat/src/usage.rs:126-138 | the bill is incomplete if and only if some operation marked it, so the flag is monotone |
| LedgerOrder.CostAccounts | crates/codegen/ccode-chat/src/usage.rs:93-98 | the cost is the saturating sum of the reported ones in order, of either sign, and absent if and only if none was reported; without negative ones it is the saturated sum |
| SaturatingSum.OrderFreeIffSteady | crates/codegen/ccode-chat/src/usage.rs:93-98 | adding signed amounts with saturation does not depend on the order if and only if there is no loss, or no gain, or both sums are within range |
| LedgerOrder.CostOrderFreeIffSteady | crates/codegen/ccode-chat/src/usage.rs:93-98 | the order of the entries does not show in the cost if and only if the costs are steady in that sense |
| LedgerOrder.CountsIgnoreOrder | crates/codegen/ccode-chat/src/usage.rs:71-147 | the counters do not depend on the order of the operations, whatever the costs |
| LedgerOrder.BillIgnoresOrder | crates/codegen/ccode-chat/src/usage.rs:71-147 | with steady costs the totals and every model entry do not depend on the order of the operations |
| LedgerOrder.NonNegativeIsSteady | crates/codegen/ccode-chat/src/usage.rs:93-98 | costs without a negative one are steady |
| LedgerOrder.NegativeCostsDependOnOrder | crates/codegen/ccode-chat/src/usage.rs:93-98 | three entries, one with a negative cost, whose order shows |
| LedgerTree.NestedAccounts | crates/codegen/ccode-chat/src/usage.rs:126-134 | for any operations: folding in a map leaves the same counters, and ticks where none is negative, as applying the operations that built it |
| LedgerTree.BilledIsNonNegative | crates/codegen/ccode-sampling-types/src/conversation.rs:769-771 | a ledger built from calls and the ledgers of subagents never sees a negative cost |
| LedgerTree.TreeAccounts | crates/codegen/ccode-shell/src/agent/subagent/handle_request.rs:1642-1660 | the bill of a session counts every call of the session and its subagents at any depth exactly once, costs included, overall and for each model |
| LedgerTree.BillDependsOnCalls | crates/codegen/ccode-shell/src/agent/subagent/handle_request.rs:1642-1660 | neither the order of the calls nor which subagent made them shows in the bill |
| LedgerTree.AdoptingIsRecording | crates/codegen/ccode-shell/src/agent/subagent/handle_request.rs:1642-1660 | taking over a subagent gives the bill of having made its calls directly |
| LedgerTree.IncompleteIffMissed | crates/codegen/ccode-chat/src/usage.rs:126-138 | the bill is incomplete if and only if something was missed in the session or a subagent at any depth |
| SubagentMerge.MergeSubagents | crates/codegen/ccode-agent/src/discovery.rs:92-181 | the loop over the entries vector computes the placement of one definition after another, then the toggle filter |
| SubagentMerge.MergedEntry | crates/codegen/ccode-agent/src/discovery.rs:113-174 | under each name: the first definition of the highest scope, built-in names only from the project; else the built-in; else nothing |
| SubagentMerge.HighestScopeIsShown | crates/codegen/ccode-agent/src/discovery.rs:113-174 | project before user before bundled, and the first of the same scope: that definition is shown, marked when it stands for a built-in subagent |
| SubagentMerge.BuiltinIsShown | crates/codegen/ccode-agent/src/discovery.rs:92-143 | where no definition takes part, a built-in subagent is shown as it comes and no other name at all |
| SubagentLaws.MergeKeepsOrder | crates/codegen/ccode-agent/src/discovery.rs:92-173 | built-in subagents come first, in their order, and a new name comes behind those that are there |
| SubagentLaws.ShownNext | crates/codegen/ccode-agent/src/discovery.rs:175-181 | the list is filtered in order: an entry is shown unless the toggle map switches its name off |
| SubagentLaws.HiddenIffToggledOff | crates/codegen/ccode-agent/src/discovery.rs:175-181 | a listed name is absent from the shown list if and only if the toggle map switches it off |
| SubagentMerge.PlaceAllKeepsDistinct | crates/codegen/ccode-agent/src/discovery.rs:145-173 | names stay distinct |
| SubagentResolution.LoadDir | crates/codegen/ccode-agent/src/discovery.rs:629-663 | the loading loop keeps the first definition of each name and skips files that do not parse |
| SubagentResolution.Discover | crates/codegen/ccode-agent/src/discovery.rs:231-248 | project directories, then home directories, first definition of a name wins |
| SubagentResolution.UserBeforeBundled | crates/codegen/ccode-agent/src/discovery.rs:196-224 | user directories all come before bundled ones |
| SubagentResolution.BothHomes | crates/codegen/ccode-agent/src/discovery.rs:196-224 | where the configured home is not the default one: its agents, those of the default one, `.claude`, then the bundled ones of both |
| SubagentResolution.OneHome | crates/codegen/ccode-agent/src/discovery.rs:196-224 | where it is, or none is configured: each directory once |
| SubagentResolution.NoUserHome | crates/codegen/ccode-agent/src/discovery.rs:196-224 | without a user home only the configured one counts |
| SubagentResolution.SearchDirs | crates/codegen/ccode-agent/src/discovery.rs:574-587 | the search returns the first directory whose file loads |
| SubagentResolution.DiscoveredIsNamed | crates/codegen/ccode-agent/src/discovery.rs:231-248 | what is discovered under a name is the first definition that calls itself so in the project, or else at home |
| SubagentResolution.DiscoveredInOrder | crates/codegen/ccode-agent/src/discovery.rs:231-248 | by position: what is discovered is, in the order of the directories, exactly the first definition of each name |
| SubagentResolution.WellNamedAgree | crates/codegen/ccode-agent/src/discovery.rs:574-627 | where files are named after their definitions, the search by file name finds what calls itself so |
| SubagentLaws.VisibleIsCallable | crates/codegen/ccode-agent/src/discovery.rs:92-305 | for all directories: a visible entry spawns what it shows if and only if its name resolves, told from the files |
| SubagentLaws.AllVisibleCallable | crates/codegen/ccode-agent/src/discovery.rs:92-305 | the promise holds for the whole list if and only if every enabled listed name resolves |
| SubagentLaws.CallableIsVisible | crates/codegen/ccode-agent/src/discovery.rs:258-305 | what a name resolves to is visible if and only if it is enabled and listed under the name it gives itself |
| SubagentLaws.WellNamedResolves | crates/codegen/ccode-agent/src/discovery.rs:92-305 | where files are named after their definitions: a listed name resolves unless it is that of a built-in profile taken at home, and what resolves is listed unless it is a profile |
| SubagentLaws.ProfileNameClashes | crates/codegen/ccode-agent/src/discovery.rs:134-143 | a user file named like a profile is listed but not callable |
| SubagentLaws.MisnamedIsNotCallable | crates/codegen/ccode-agent/src/discovery.rs:574-627 | a file whose definition has another name than its stem is listed under a name that does not resolve |

## Left out

- Fields no modelled operation reads or writes: model and fingerprint fields of assistant items, prompt index, turn-interrupt and working-directory marks of user items.
- The text of synthetic results is the one wording that history repair passes; the user-cancelled wording takes the same path.
- The alternative order that puts the summary before the recent messages: its carrier is not compiled in.
- Token sums are unbounded naturals; overflow of 64-bit sums is not modelled.
- Strings are character sequences with UTF-8 lengths; other encodings do not occur.
- ReaderRefinesStream: assumes that a refill without bytes is the end of the source, as the reader interface prescribes.
- Wakers and task scheduling of the line reader: a poll and a task round are atomic steps, and the queue holds 65 messages (64 slots and one for its sender).
- Gateway messages are identified by number; their contents, tracing and the two directions of the connection are the same protocol.
- A handler's effect and its completion are one step of the gateway, and a reply nobody waits for counts as sent.
- TOML leaves are opaque values; parsing, version overrides and reading layers from disk.
- HighestPriorityWins: for entries that set no table at the path; with a table there, lower layers show through and LookupMerge says how.
- LastRequirementDecides: for a last layer that sets no table at the path; with a table there, LookupMerge says how the layers combine.
- CapHoldsExactly: for fewer than 10^74 turns, far beyond a machine word; so is OvershootIsBounded.
- LongPartsExceed: for budgets whose byte count fits a machine word; beyond that no text is long enough to be cut.
- NestedAccounts: the ticks of the cost add up this way only without negative costs, which BilledIsNonNegative shows never occur; CostAccounts covers either sign.
- What the detail levels write for a turn is a parameter; statistics, keywords and index rows are not modelled, nor is the level that writes no turns.
- The per-model map is compared by lookup, as the program compares it; its insertion order is modelled but not claimed to be independent of the order of operations.
- VisibleIsCallable and its companions take the scopes that discovery assigns: project directories are project scope, home directories user or bundled.
- Plugin agents, reading agent files, the walk to the repository root, and every field of a definition but name, description and scope.
- The agent builder, the chat actor, permissions, retries, announcements and the command line: plumbing or easy members.
