# Verified model of the low-code builder's algorithms

The builder turns requirement documents and conversations into a low-code
application. Between its network, database and prompt code it depends on a
number of algorithms over plain data, and this project models those and proves
what they are for. One module stands for one source file or for one job of a
larger file.

| file | models |
|---|---|
| `Basics.dfy` | options, and elements of sets |
| `PyText.dfy` | `strip`, `find` and `join`, and the sorted keys of an integer-keyed dictionary |
| `ReasoningSplit.dfy` | the streaming splitter of `<think>` text |
| `LlmTransport.dfy` | one streamed model call, the retry loop, the non-streamed tail, tool-call fragments |
| `FormScheduler.dfy` | the creation order of forms by their data selectors |
| `DocDiffer.dfy` | semantic difference, patch actions, application of the actions |
| `DiffMeaning.dfy` | what that difference says and what a patch reaches, entry by entry |
| `PatchConditions.dfy` | exactly when such a patch reaches its target |
| `ConfigDiff.dfy` | two-level difference with code inheritance |
| `ConfigDiffMeaning.dfy` | what that difference reports and what is inherited, entry by entry |
| `ObjectEntries.dfy` | the two scanners over JavaScript object source and the joiner |
| `SceneDirs.dfy` | normalisation of one scene directory |
| `MenuMove.dfy` | moving a menu in the menu tree |
| `AppLocks.dfy` | the application lock with stale takeover, as a transition system |
| `AuditLog.dfy` | keyset pagination of the audit log |
| `ContextCompact.dfy` | compaction of a conversation |
| `ConfigPostprocess.dfy` | dropdowns without a dictionary: reconciliation and downgrade |

How the code is rendered: code that updates state step by step is a method or a
class with loops, proved equal to a function or characterised by its `ensures`;
what the code promises is then proved about that function. What such a function
decides is also said without it, in terms of the entries of the input: which form
a selector names, which lines of a stream are read, what a difference lists. An exception or an
early error return is a result value. A missing entry of a Python dictionary is
an `Option` where the code tells it from an empty one, and `""` or `[]` where it
does not. Map building keeps the code's "last one wins" and "first one wins".
The iteration order of Python sets is left open.

## What was found

Some properties that the code's comments or its callers suggest hold only under
a condition. The code is modelled as it is; each item names the lemma that shows
the failing case and the one that gives the exact condition.

- Patch by name. An entry that keeps its name and changes its code is added and
  then removed by name (`RecodedModelIsLost`, `RecodedDictIsLost`,
  `RecodedFieldIsLost`, `RecodedRoleIsLost`), and a model or dictionary that
  changes its name together with its content keeps the old content
  (`RenamedModelIsNotPatched`, `RenamedDictIsNotPatched`). Exactly when the patch
  reaches its target: `PatchConvergesExactly`, in terms of names alone
  `PatchConvergesByNames`, code by code where models take over each other's names
  `PatchConvergesByCodes` (a field that one gains then goes to the other:
  `GainGoesToTheNamesake`), level by level `ModelsKeepTheirNames`,
  `LevelConvergesExactly` for dictionaries, `FieldsConvergeExactly` and
  `RolesConvergeExactly`. A changed dictionary need not keep its own name: two of
  them may exchange names (`ExchangedNamesAreFine`).
- Inherited codes can collide: with the code of a new entry, which then hides its
  neighbour (`CollisionLosesAnEntry`), and with each other, when two new entries
  have the name of one old entry (`NamesakesLoseAnEntry`). Exactly when:
  `InheritedCodesDistinct`.
- Join and split are inverse exactly for separable entries
  (`SplitUndoesJoinExactly`).
- The lock admits a second task when a hold outlasts the timeout: exclusion holds
  while none does (`MutualExclusion`), and every run in which one does comes to a
  point where the next caller is let in (`ExclusionNeedsShortHolds`). After that,
  a displaced task releases the lock of the task that displaced it
  (`TwoFreshHolders`). A takeover displaces only a task inside for more than 30 s
  when the stamp follows the lock at once (`PromptTakeoverVictim`), as from
  Python 3.12 on; before that a task can be displaced between the two
  (`UnstampedAcquirerIsDisplaced`).
- The streamed call overwrites a tool name, the list merge concatenates it; the
  merge pads the indexes that are left out, the streamed call does not
  (`GapsArePadded`). For indexes that are not negative, exactly when the two give
  the same list: `AggregatorsAgree`, for a whole call `FinalMessageIsMerged`. A
  negative index is merged into a slot that is there (`NegativeIndexIsMerged`).
- Without a workspace, `_compact_coding` keeps a number of messages where its
  comment speaks of rounds (`ToolCallsBreakTheTail`, exactly when:
  `LastMessagesAreRounds`), and can keep a tool result without its call
  (`ToolCallsBreakTheTail`, exactly when, for conversations whose tool results
  follow their calls: `LastMessagesAreOrphanFree`). So can the chat mode
  (`LongCallIsCutOff`, exactly when: `ChatTailIsOrphanFree`).
- `clean_tool_results` with `keep_recent=0` keeps all results
  (`KeepingNoneKeepsAll`, exactly when: `CleaningIsComplete`).
- A dropdown can count as relinked and be downgraded all the same
  (`BlankCodeIsAccepted`, exactly when: `DowngradedAreTheUnlinked`).
- The splitter's `feed` does not return when both tags are empty
  (`EmptyTagsLoop`, exactly when: `FeedEndsExactly`).
- Two semantics can get one variable name in the index of a scene directory
  (`OneNameIsDeclaredTwice`, exactly when: `DeclaredNamesDistinct`).

## Model

| member | source | states |
|---|---|---|
| ReasoningSplit.HeldPartialLen | backend/app/llm_reasoning.py:17-26 | the length held back is that of the longest suffix that is a proper prefix of the tag, and 0 for an empty tag |
| ReasoningSplit.ReasoningSplitter.Feed | backend/app/llm_reasoning.py:42-70 | one call emits, and leaves in the splitter, what one pass over buffer and text does; it ends unless both tags are empty |
| ReasoningSplit.ReasoningSplitter.Flush | backend/app/llm_reasoning.py:72-78 | the rest of the buffer comes out on the side the splitter is on, and the buffer is empty |
| ReasoningSplit.FeedEndsExactly | backend/app/llm_reasoning.py:45-69 | the loop is left, from every state, if and only if the tags are not both empty |
| ReasoningSplit.EmptyTagsLoop | backend/app/llm_reasoning.py:45-69 | with two empty tags every turn consumes nothing and only changes the side |
| ReasoningSplit.StripThinkBlocks | backend/app/llm_reasoning.py:81-86 | the one-shot function is the splitter fed with the whole text in one chunk |
| ReasoningSplit.DrainSettles | backend/app/llm_reasoning.py:42-70 | after a call the buffer holds nothing that could already have been emitted |
| ReasoningSplit.FeedAllIsOneFeed | backend/app/llm_reasoning.py:42-70 | feeding chunks one by one gives the output and the state of feeding their concatenation |
| ReasoningSplit.SegmentsExist | backend/app/llm_reasoning.py:42-70 | every text has a cut into pieces at the first occurrences of the alternating tags |
| ReasoningSplit.SegmentsWeave | backend/app/llm_reasoning.py:42-70 | that cut loses and reorders no character |
| ReasoningSplit.DrainFollowsSegments | backend/app/llm_reasoning.py:42-78 | a pass with the flush gives the even pieces of that cut as visible and the odd ones as reasoning |
| ReasoningSplit.ChunkingInvariance | backend/app/llm_reasoning.py:29-78 | for every text and every way of chunking it, the received parts are those of the cut of the whole text, and after any call the buffer is the longest suffix that is a proper prefix of the sought tag |
| ReasoningSplit.GatheredPieces | backend/app/llm_reasoning.py:42-78 | outside a block the even pieces are visible and the odd ones reasoning |
| ReasoningSplit.CutsDoNotMatter | backend/app/llm_reasoning.py:29-78 | two ways of chunking the same text give the same output, and the same state except where the open tag is empty and only one of them has no chunk at all |
| ReasoningSplit.NoTagAllVisible | backend/app/llm_reasoning.py:81-86 | a text without the open tag is entirely visible |
| LlmTransport.StreamCall.YieldParts | backend/app/llm_transport.py:428-433 | reasoning is sent before content, empty parts are not sent, and sent content is accumulated |
| LlmTransport.StreamCall.TakeTool | backend/app/llm_transport.py:434-453 | a fragment updates its own slot only and is announced with the arguments so far |
| LlmTransport.StreamCall.TakeChunk | backend/app/llm_transport.py:415-453 | the effect of one decoded chunk on the whole state of the call |
| LlmTransport.StreamCall.FlushTail | backend/app/llm_transport.py:458-474 | the held text is sent, then the final message with sorted tool calls and usage |
| LlmTransport.StreamChunksOnce | backend/app/llm_transport.py:357-474 | one call with its abort, end mark, dropped connection, rejected status and empty response |
| LlmTransport.ReceivedIsDelivered | backend/app/llm_transport.py:400-413 | the chunks read are exactly those of the data lines before the first abort or end mark, each once and in order |
| LlmTransport.DeliveredIsReceived | backend/app/llm_transport.py:400-413 | there is only one such list of chunks |
| LlmTransport.ChunksCarry | backend/app/llm_transport.py:415-446 | content pieces, own reasoning and fragments together are those of the chunks in order, and the usage is the last one given |
| LlmTransport.ChunkIsTold | backend/app/llm_transport.py:422-453 | the events of a chunk in order: its own reasoning, the reasoning and the text the splitter finds, one event a fragment |
| LlmTransport.TailIsTold | backend/app/llm_transport.py:458-474 | at the end the rest of the reasoning, the rest of the text, and the final message last |
| LlmTransport.NothingEmptyIsSent | backend/app/llm_transport.py:421-433 | no event with an empty text is sent |
| LlmTransport.ThoughtsAre | backend/app/llm_transport.py:421-430 | all the reasoning is as long as both sources together, and without own reasoning it is what one splitter finds |
| LlmTransport.SlotHolds | backend/app/llm_transport.py:434-446 | a slot holds the last id, the last name and all the arguments of the fragments of its index, each once and in order |
| LlmTransport.FailureIs | backend/app/llm_transport.py:387-456 | which failure is raised: the rejected status, else the dropped connection, else the empty response, else none |
| LlmTransport.ChunksTracked | backend/app/llm_transport.py:400-453 | after any chunks the content is the visible part of the pieces fed to one splitter and each slot is built from its own fragments |
| LlmTransport.StreamingEqualsComplete | backend/app/llm_transport.py:379-474 | the final content equals the concatenated content deltas and equals what the non-streamed call leaves of the whole text on the data lines, for any cutting of it; the reasoning sent and the usage are those of the lines |
| LlmTransport.CompleteTail | backend/app/llm_transport.py:571-578 | the non-streamed tail changes only a content that mentions the tag |
| LlmTransport.CompleteIsStrip | backend/app/llm_transport.py:572-577 | skipping the stripping for texts without the tag is the same as always stripping |
| LlmTransport.CallSucceedsExactly | backend/app/llm_transport.py:387-456 | a call succeeds if and only if it is not rejected, a data line precedes the first abort or end mark, and the connection lasts up to that point |
| LlmTransport.FailedCallSendsPrefix | backend/app/llm_transport.py:400-456 | a rejected call sends nothing; any other failed call has sent exactly the text, reasoning and fragments of the lines read, as far as the splitter let them through, and no final message |
| LlmTransport.SilentCall | backend/app/llm_transport.py:493-531 | a failed call has sent nothing if and only if no visible text, reasoning or fragment came of it |
| LlmTransport.FinalToolSlots | backend/app/llm_transport.py:434-474 | over the lines read, each tool slot holds its own fragments in arrival order whatever the interleaving, the slots are in index order, and each announcement carries the arguments so far |
| LlmTransport.StreamChunks | backend/app/llm_transport.py:493-531 | the caller sees the events of exactly one attempt; every earlier one made no text, reasoning or fragment and was retryable; it stops early only after output or an error that is not retryable |
| LlmTransport.ToolCallList.MergeDelta | backend/app/llm_transport.py:237-257 | the list after merging, negative indexes and the failing index included |
| LlmTransport.MergeCollects | backend/app/llm_transport.py:237-257 | merged from nothing, the merging fails if and only if a negative index reaches before the start of the list as it is then; otherwise slot k holds exactly the fragments that went there, in order |
| LlmTransport.LandsAtIndex | backend/app/llm_transport.py:237-257 | without negative indexes these are the fragments of index k, and the list ends at the highest index |
| LlmTransport.SlotsAgree | backend/app/llm_transport.py:434-446 | without negative indexes, slot by slot the streamed slots and the merged list agree on id and arguments always, and on the name if and only if it came in at most one fragment |
| LlmTransport.AggregatorsAgree | backend/app/llm_transport.py:434-467 | without negative indexes, the slots of the final message are the merged list if and only if no index below the highest is left out and no name came in two fragments |
| LlmTransport.FinalMessageIsMerged | backend/app/llm_transport.py:434-474 | the same of the final message of a whole call |
| LlmTransport.GapsArePadded | backend/app/llm_transport.py:245-248 | fragments of index 0 and 2 give three merged slots and two streamed ones |
| LlmTransport.NegativeIndexIsMerged | backend/app/llm_transport.py:245-249 | index -1 after index 0 is merged into the slot of 0, and has a slot of its own in the streamed call |
| FormScheduler.DefsAreWithin | backend/app/generator_v2.py:306-315 | the flat list holds exactly the components at any depth of table columns |
| FormScheduler.DefsInOrder | backend/app/generator_v2.py:306-315 | the flat list goes through the components in order |
| FormScheduler.IterComponentDefs | backend/app/generator_v2.py:306-315 | the recursion that builds the flat list |
| FormScheduler.RegisterIdentities | backend/app/generator_v2.py:355-358 | an identity leads to the first form that carries it |
| FormScheduler.SelectorReads | backend/app/generator_v2.py:318-344 | kind, target and label of a component are the first given of their entries, in the code's order |
| FormScheduler.JudgeDecides | backend/app/generator_v2.py:364-381 | a selector needs form d if and only if d is the first form that carries its target and not its own; it is reported exactly when its target is missing, or neither in the batch nor known |
| FormScheduler.JudgeSelector | backend/app/generator_v2.py:364-381 | what one component contributes: nothing, a dependency or an issue |
| FormScheduler.ReadSelectors | backend/app/generator_v2.py:363-381 | a form's dependencies are exactly the forms of the batch that its selectors name, nested columns included |
| FormScheduler.BuildGraph | backend/app/generator_v2.py:360-383 | the graph has an edge exactly where a selector of a form names another form of the batch |
| FormScheduler.UnresolvedAre | backend/app/generator_v2.py:359-383 | the issues are exactly those of the unresolved selectors, form by form |
| FormScheduler.IssuesInOrder | backend/app/generator_v2.py:361-381 | within a form they follow the selectors, each giving at most one |
| FormScheduler.DependencySort.Visit | backend/app/generator_v2.py:385-408 | a visit ends, keeps stack and marks consistent, puts dependencies first, and on failure leaves a real closed walk |
| FormScheduler.DependencySort.VisitDeps | backend/app/generator_v2.py:400-403 | all dependencies of the vertex on the stack are finished, or a cycle was found |
| FormScheduler.WalkGoesDown | backend/app/generator_v2.py:385-415 | along dependency edges positions in the order only go down |
| FormScheduler.OrderedGraphIsAcyclic | backend/app/generator_v2.py:385-415 | a graph with such an order has no cycle |
| FormScheduler.SortGraph | backend/app/generator_v2.py:385-415 | success if and only if the graph is acyclic, then a topological order, otherwise a real cycle |
| FormScheduler.RequiresInRange | backend/app/generator_v2.py:373-377 | dependencies are forms of the batch and never the form itself |
| FormScheduler.SortForms | backend/app/generator_v2.py:347-415 | unresolved targets give all their issues; otherwise no issue exactly when no closed chain of selections exists, and then every form comes after every form it selects from; otherwise one issue with a real chain; without issues the result is a permutation |
| FormScheduler.ArrangedIsPermutation | backend/app/generator_v2.py:415-415 | listing the forms by an order of all indexes is a permutation |
| DocDiffer.BuildMap | backend/app/doc_differ.py:51-52 | the code-keyed dictionary: last entry wins, keys in order of first entry, entries without code left out |
| DocDiffer.Compare | backend/app/doc_differ.py:54-79 | the added, common and removed entries of one level |
| DocDiffer.CompareFields | backend/app/doc_differ.py:119-142 | the field difference, a type counting only when both sides have one |
| DocDiffer.ComputeSemanticDiff | backend/app/doc_differ.py:42-116 | the whole difference over models, fields, dictionaries, options and roles |
| DiffMeaning.DifferenceSays | backend/app/doc_differ.py:42-116 | every list of the difference, entry by entry: what is added, removed and modified, with names, and added and removed in the order of their codes |
| DiffMeaning.FieldDiffIs | backend/app/doc_differ.py:119-142 | added, modified and removed fields: modified are the pairs that differ in dictionary, reference, or type where both have one |
| DiffMeaning.ComparisonSays | backend/app/doc_differ.py:93-98 | when fields and dictionaries count as different |
| DiffMeaning.ComparedInOrder | backend/app/doc_differ.py:51-79 | added and common entries come in the order in which their codes first come in the new list, each code once |
| DiffMeaning.EmptyDifferenceSays | backend/app/doc_differ.py:42-142 | the difference is empty if and only if models, fields, dictionaries, options and roles say the same, code by code |
| DocDiffer.ConfigStore.EditFields | backend/app/doc_differ.py:246-259 | a field operation on every model of the name, and nothing else changes |
| DocDiffer.ConfigStore.ApplyOne | backend/app/doc_differ.py:241-271 | the effect of one action on the configuration |
| DocDiffer.ApplyActionsToConfig | backend/app/doc_differ.py:235-272 | the selected actions, one after the other |
| DiffMeaning.OperationSays | backend/app/doc_differ.py:241-271 | what each operation does to its list, and that it does nothing else |
| DiffMeaning.SelectedInOrder | backend/app/doc_differ.py:238-240 | the operations of the selected actions, in order |
| DocDiffer.NothingSelected | backend/app/doc_differ.py:238-240 | with nothing selected no operation is run |
| DocDiffer.DiffToActions | backend/app/doc_differ.py:145-232 | the actions of a difference, in their order |
| DocDiffer.LevelEffect | backend/app/doc_differ.py:145-272 | additions, updates and removals by name leave each code with the entry it should have |
| DocDiffer.LevelConverges | backend/app/doc_differ.py:42-272 | after the operations of a level, comparing with the target finds nothing |
| DocDiffer.FieldsConverge | backend/app/doc_differ.py:119-272 | the same for the fields of a model |
| DocDiffer.ModelEffect | backend/app/doc_differ.py:145-272 | which model stands for a code after the whole patch, with its fields patched |
| DocDiffer.ModelsConverge | backend/app/doc_differ.py:42-272 | after the patch the models and their fields differ in nothing |
| DocDiffer.PatchEffect | backend/app/doc_differ.py:145-272 | the actions of the three kinds do not interfere |
| DocDiffer.PatchConverges | backend/app/doc_differ.py:42-272 | when names agree with codes at every level, applying all actions of the difference gives a configuration whose difference from the target is empty |
| DiffMeaning.PatchReachesTarget | backend/app/doc_differ.py:42-272 | then the patched configuration has the codes of the target on every level, with its dictionaries, references, types and options |
| DiffMeaning.PatchKeepsTheRest | backend/app/doc_differ.py:145-272 | dictionaries whose options say the same and roles under the same code stay as they are; changed and new ones are those of the target |
| PatchConditions.AddRemoveConvergesExactly | backend/app/doc_differ.py:215-272 | with distinct codes, additions and removals by name converge if and only if no removed entry shares its name with one that stays or comes in |
| PatchConditions.RolesConvergeExactly | backend/app/doc_differ.py:215-272 | with distinct names and codes the role patch converges if and only if no role that goes out has the name of one that comes in |
| PatchConditions.LevelConvergesExactly | backend/app/doc_differ.py:190-272 | a level whose updates aim at the new names, as for dictionaries, converges if and only if in addition the changed entries have, all together, the same names before and after |
| PatchConditions.AimedConvergesExactly | backend/app/doc_differ.py:160-272 | a level whose updates aim at the old names, as for fields, converges if and only if names that go out do not come back, none that an update aims at comes in, and none is taken that a later update aims at |
| PatchConditions.FieldsConvergeExactly | backend/app/doc_differ.py:119-272 | the same for the fields of a model |
| PatchConditions.ModelsConvergeExactly | backend/app/doc_differ.py:145-272 | the models converge if and only if no name goes out and comes in and every common model meets its new form under the field updates of the model whose new name it has |
| PatchConditions.ModelsKeepTheirNames | backend/app/doc_differ.py:145-272 | where no old model has the new name of another, that is: every model whose fields change keeps its name, and its fields meet the condition for fields |
| PatchConditions.PatchConvergesExactly | backend/app/doc_differ.py:42-272 | with distinct names and codes on each side, the difference left after applying all actions is empty if and only if every level meets its condition |
| PatchConditions.PatchConvergesByNames | backend/app/doc_differ.py:42-272 | the same condition in terms of names alone, where no old model has the new name of another |
| PatchConditions.TakenOverExactly | backend/app/doc_differ.py:119-272 | fields under the updates of another model meet their target if and only if, code by code, what those updates add, overwrite, remove or leave fits it |
| PatchConditions.ModelsConvergeByCodes | backend/app/doc_differ.py:145-272 | models that may take over each other's names, with field names that agree with field codes: the condition for the models code by code, on the old and new fields of both models |
| PatchConditions.PatchConvergesByCodes | backend/app/doc_differ.py:42-272 | the whole patch under that condition |
| PatchConditions.GainGoesToTheNamesake | backend/app/doc_differ.py:160-180 | a field that one model gains goes to the model whose old name it takes, and the patch fails if that one is not to have it |
| PatchConditions.RecodedModelIsLost | backend/app/doc_differ.py:149-188 | a model that changes its code under the same name disappears |
| PatchConditions.RecodedDictIsLost | backend/app/doc_differ.py:190-213 | a dictionary that changes its code under the same name disappears |
| PatchConditions.RecodedFieldIsLost | backend/app/doc_differ.py:160-180 | a field that changes its code under the same name disappears |
| PatchConditions.RecodedRoleIsLost | backend/app/doc_differ.py:215-230 | a role that changes its code under the same name disappears |
| PatchConditions.RenamedDictIsNotPatched | backend/app/doc_differ.py:190-213 | a dictionary that changes its name together with its options keeps the old options |
| PatchConditions.RenamedModelIsNotPatched | backend/app/doc_differ.py:160-180 | the field actions of a renamed model reach no model |
| PatchConditions.ExchangedNamesAreFine | backend/app/doc_differ.py:190-213 | two changed dictionaries that exchange their names are patched |
| ConfigDiff.EntityList.InheritListCodes | backend/app/config_diff.py:349-405 | codes are overwritten in place by those of same-named old entries; the old entries by name are returned |
| ConfigDiff.InheritDeepCodes | backend/app/config_diff.py:223-346 | parents inherit, and children inherit inside a same-named parent |
| ConfigDiff.InheritCodesFromOld | backend/app/config_diff.py:223-346 | inheritance over roles, dictionaries and models |
| ConfigDiffMeaning.InheritanceSays | backend/app/config_diff.py:349-405 | an entry takes the code of the last old entry of its name, in place and only where both have one; everything else stays |
| ConfigDiffMeaning.DeepInheritanceSays | backend/app/config_diff.py:223-346 | below a parent with an old namesake the children inherit from the children of that one |
| ConfigDiff.CompareLeaves | backend/app/config_diff.py:481-563 | added, deleted and modified are exactly the new-only, old-only and differing codes, each once |
| ConfigDiff.CompareParents | backend/app/config_diff.py:566-660 | the same with the exact child changes of every parent, a parent being modified also when only its children are |
| ConfigDiff.CompareParentsAt | backend/app/config_diff.py:791-883 | the change of one code with its child changes |
| ConfigDiff.CompareRoles | backend/app/config_diff.py:408-478 | roles are added and deleted by name and never modified |
| ConfigDiff.ComputeConfigDiff | backend/app/config_diff.py:1351-1420 | the exact difference from the old configuration after inheritance |
| ConfigDiffMeaning.ConfigDifferenceSays | backend/app/config_diff.py:481-883 | added are exactly the new-only codes, deleted the old-only ones, modified those that differ in name or below, each once and with all changes of the children; roles by name |
| ConfigDiffMeaning.ComparisonSays | backend/app/config_diff.py:547-552 | when options and fields count as different |
| ConfigDiffMeaning.LeafDifferenceSays | backend/app/config_diff.py:481-563 | the same for one level |
| ConfigDiffMeaning.RoleDifferenceSays | backend/app/config_diff.py:408-478 | the same for roles, with the codes they carry |
| ConfigDiff.ReplayEffect | backend/app/config_diff.py:481-883 | replaying changes gives each code the result of its own change only |
| ConfigDiff.LeafReplayConverges | backend/app/config_diff.py:481-563 | a one-level difference replayed on the old entries leaves no difference |
| ConfigDiff.DeepReplayConverges | backend/app/config_diff.py:566-883 | the same for two levels |
| ConfigDiff.ConfigReplayConverges | backend/app/config_diff.py:481-883 | the computed difference replayed on the old configuration leaves nothing to report for dictionaries, options, models and fields |
| ConfigDiffMeaning.NothingToReportSays | backend/app/config_diff.py:566-883 | there is nothing to report if and only if both sides have the same codes with the same names and nothing different below |
| ConfigDiffMeaning.ReplayReachesTarget | backend/app/config_diff.py:481-883 | the replayed configuration has exactly the codes of the new one, with its names and children |
| ConfigDiff.InheritanceIsIdempotent | backend/app/config_diff.py:223-405 | inheriting a second time changes nothing |
| ConfigDiff.CodeChangesAreHidden | backend/app/config_diff.py:223-883 | when only codes changed under unique names, entry by entry in the old order, every change list is empty |
| ConfigDiff.CodeChangesAreHiddenInAnyOrder | backend/app/config_diff.py:223-883 | so it is when only codes and the order of entries changed, on any level |
| ConfigDiff.InheritedCodesDistinct | backend/app/config_diff.py:349-405 | distinct codes stay distinct if and only if no inherited code is the own code of an entry that inherits nothing, and no two entries that inherit share a name |
| ConfigDiff.NamesakesLoseAnEntry | backend/app/config_diff.py:399-403 | two new entries with the name of an old one both take its code, and no difference is reported |
| ConfigDiff.CollisionLosesAnEntry | backend/app/config_diff.py:399-403 | such a collision reports a rename and hides the entry |
| ObjectEntries.SplitTopLevelEntries | backend/form_component_editor_impl.py:975-1046 | the scanner cuts at exactly the commas read as code at depth zero and drops empty entries |
| ObjectEntries.TopCommaSays | backend/form_component_editor_impl.py:1037-1041 | it cuts at the commas that are read as code outside all brackets |
| ObjectEntries.StringIsSkipped | backend/form_component_editor_impl.py:998-1018 | a quote in code opens a string that ends at the next quote of its kind that no backslash escapes; nothing in it is code |
| ObjectEntries.OpenStringTakesAll | backend/form_component_editor_impl.py:998-1018 | a string that is not closed takes in the rest |
| ObjectEntries.LineCommentIsSkipped | backend/form_component_editor_impl.py:990-1011 | two slashes in code open a comment up to the end of the line |
| ObjectEntries.BlockCommentIsSkipped | backend/form_component_editor_impl.py:994-1014 | a slash and a star open a comment up to the next star with a slash after it |
| ObjectEntries.RestIsCode | backend/form_component_editor_impl.py:1009-1041 | any other character in code is read as code |
| ObjectEntries.SplitUndoesJoin | backend/form_component_editor_impl.py:975-1046 | splitting joined separable entries gives them back, strings, escapes and both comment kinds included |
| ObjectEntries.SplitUndoesJoinExactly | backend/form_component_editor_impl.py:1118-1119 | joining and splitting gives the entries back if and only if they are separable |
| ObjectEntries.OutputShape | backend/form_component_editor_impl.py:1026-1046 | every entry is trimmed, non-empty and does not start with a comma |
| ObjectEntries.CleanedInOrder | backend/form_component_editor_impl.py:1118-1119 | the joiner takes the entries in order |
| ObjectEntries.CleanedOne | backend/form_component_editor_impl.py:1118-1119 | a blank entry is left out; of another one only the white space at its end and the commas before that go |
| ObjectEntries.SplitPartitions | backend/form_component_editor_impl.py:975-1046 | only top-level commas and outer white space are taken out, and every other character is in exactly one entry |
| ObjectEntries.FindMatchingDelimiter | backend/form_component_editor_impl.py:1066-1115 | the least index at which a closer outside strings and comments returns the depth to zero, or -1 exactly when there is none |
| ObjectEntries.DepthIsCount | backend/form_component_editor_impl.py:1107-1113 | on properly nested source the counted depth is the number of open brackets of the kind |
| ObjectEntries.ScannersAgree | backend/form_component_editor_impl.py:975-1115 | on properly nested source the delimiter found is the matching bracket, and the splitter scans the body with no negative depth back to code at depth zero |
| ObjectEntries.ExtractBody | backend/form_component_editor_impl.py:803-811 | the body between a brace and its matching brace, or nothing when there is none |
| SceneDirs.SemanticNamesOneFile | backend/form_component_editor_impl.py:1712-1724 | a file name carries a semantic if and only if it is that semantic's one file name |
| SceneDirs.ComponentFiles | backend/form_component_editor_impl.py:1767-1767 | the listed files are those whose name ends in `.vue` |
| SceneDirs.SceneDir.DeleteAll | backend/form_component_editor_impl.py:1817-1840 | the named files that are not kept go, unless they cannot be deleted, and those that went are reported |
| SceneDirs.SceneDir.Sort | backend/form_component_editor_impl.py:1771-1785 | every listed file is in exactly the bucket of its kind |
| SceneDirs.SceneDir.Choose | backend/form_component_editor_impl.py:1787-1813 | which files are kept, the single stray included |
| SceneDirs.SceneDir.Sweep | backend/form_component_editor_impl.py:1817-1840 | exactly the other and stray files go; the buckets have no extra files |
| SceneDirs.SceneDir.NormalizeScene | backend/form_component_editor_impl.py:1761-1860 | the directory afterwards and exactly the names reported as changed |
| SceneDirs.KeptFilesExist | backend/form_component_editor_impl.py:1787-1807 | kept files exist, and distinct semantics have distinct files |
| SceneDirs.KeptUnique | backend/form_component_editor_impl.py:1787-1807 | what is kept is determined by directory and semantics |
| SceneDirs.KeptSays | backend/form_component_editor_impl.py:1771-1813 | kept is the file of each semantic that has one; with none there, and only one semantic, a single misnamed file stands in |
| SceneDirs.PresentInOrder | backend/form_component_editor_impl.py:1787-1797 | in the order of the semantics |
| SceneDirs.NormalizationIsSafe | backend/form_component_editor_impl.py:1809-1860 | nothing changes unless a file is kept; kept and foreign files keep their content; only kept and undeletable components are left |
| SceneDirs.IndexReadsBack | backend/form_component_editor_impl.py:1842-1860 | read line by line, the written index imports exactly the kept files, in order, under their variable names |
| SceneDirs.ImportedNames | backend/form_component_editor_impl.py:1843-1850 | each import has side, semantic and scene in its name |
| SceneDirs.IndexListsNames | backend/form_component_editor_impl.py:1851-1858 | the written index lists exactly the imported names, in order |
| SceneDirs.IndexExportsList | backend/form_component_editor_impl.py:1851-1858 | and exports that list |
| SceneDirs.IndexImportsWhatIsLeft | backend/form_component_editor_impl.py:1842-1860 | when deletions succeed, the files that the index text imports, as read back, are exactly the component files left, each once |
| SceneDirs.DeclaredNamesDistinct | backend/form_component_editor_impl.py:1843-1850 | the variables that the index declares are distinct if and only if the Pascal forms of the kept semantics are |
| SceneDirs.DashesAreForgotten | backend/form_component_editor_impl.py:1705-1706 | two semantics that differ in a doubled dash have one Pascal form |
| SceneDirs.OneNameIsDeclaredTwice | backend/form_component_editor_impl.py:1842-1860 | a directory with the files of both keeps both, and the written index declares one name for two files |
| SceneDirs.SecondRunChangesNothing | backend/form_component_editor_impl.py:1727-1862 | a second run keeps the same files and changes nothing, failed deletions included |
| MenuMove.Mover.WalkRemove | backend/app/apaas_client.py:2503-2517 | the rebuilt tree is the old one without the menu, and the menu is remembered |
| MenuMove.Insert | backend/app/apaas_client.py:2532-2539 | the menu becomes the last child of the first node with the id, or nothing is inserted |
| MenuMove.VerifyReadsParent | backend/app/apaas_client.py:2564-2572 | the check reads the parent entry of the first node with the id |
| MenuMove.ViewSays | backend/app/apaas_client.py:2503-2517 | what delivered and posted nodes mean: key, data and children, one tree a dictionary |
| MenuMove.FoundSays | backend/app/apaas_client.py:2503-2521 | the remembered menu is the last match among siblings, and inside a match nothing is looked for |
| MenuMove.GroupSays | backend/app/apaas_client.py:2525-2530 | the destination is the given id without the white space around it |
| MenuMove.UpdateMenuParent | backend/app/apaas_client.py:2481-2580 | the outcome in every case, the posted tree included |
| MenuMove.PruneInfo | backend/app/apaas_client.py:2503-2517 | taking a menu out leaves all others, outside its subtree, with their data and children |
| MenuMove.PruneKeys | backend/app/apaas_client.py:2503-2517 | exactly the subtree of the menu is taken out |
| MenuMove.GraftInfo | backend/app/apaas_client.py:2532-2539 | insertion succeeds exactly when the destination exists and changes only its children |
| MenuMove.GraftKeys | backend/app/apaas_client.py:2532-2539 | insertion adds the menu once and loses none |
| MenuMove.FoundIsNode | backend/app/apaas_client.py:2503-2521 | with unique ids the remembered menu is the node with the id |
| MenuMove.AcceptedExactly | backend/app/apaas_client.py:2529-2544 | a destination is accepted if and only if it is the root or another menu outside the moved subtree |
| MenuMove.MoveKeepsTheRest | backend/app/apaas_client.py:2503-2544 | the posted tree holds every menu once but for the moved one's descendants, which go; the menu is last under its destination, and all others keep data, parent and sibling order |
| MenuMove.MoveSucceedsExactly | backend/app/apaas_client.py:2481-2580 | the move of a present menu goes through exactly for acceptable destinations, and the check reads the destination back |
| AppLocks.AppLockEntry.Begin | backend/app/app_locks.py:82-96 | the caller is refused exactly when the lock is held and not stale; a stale lock is released |
| AppLocks.AppLockEntry.Stamp | backend/app/app_locks.py:108-109 | the entry names its holder, and it is stale exactly from 30 s later on, unless the clock reads 0 |
| AppLocks.AppLockEntry.Enter | backend/app/app_locks.py:82-112 | a caller that nobody interrupts is refused and changes nothing, or is let in and every later caller is refused exactly up to the timeout |
| AppLocks.AppLockRegistry.GetEntry | backend/app/app_locks.py:48-58 | an application always has one entry, created free, and no two share one |
| AppLocks.AppLockRegistry.AcquireAppLock | backend/app/app_locks.py:69-112 | the first caller of an application is let in, later ones as its own lock says, and the locks of the others do not change |
| AppLocks.AppLockEntry.Leave | backend/app/app_locks.py:114-121 | the entry is free afterwards, whoever held the lock, and the next caller is let in |
| AppLocks.HoldersBound | backend/app/app_locks.py:69-122 | in every run of any number of tasks, those in the section are at most one if the lock is held, plus one per takeover so far |
| AppLocks.QuietStep | backend/app/app_locks.py:69-122 | every step without a takeover keeps the entry describing its one holder |
| AppLocks.MutualExclusion | backend/app/app_locks.py:69-122 | when no hold outlasts the timeout there is no takeover and never more than one task inside |
| AppLocks.TakeoverVictim | backend/app/app_locks.py:61-94 | a takeover displaces a last acquirer only if it has held for more than 30 s or has not stamped the entry yet |
| AppLocks.PromptTakeoverVictim | backend/app/app_locks.py:61-109 | when the stamp follows the lock at once, a takeover displaces only a task that has been inside for more than 30 s |
| AppLocks.TakeoverExactly | backend/app/app_locks.py:61-94 | before any takeover, the next caller takes the lock over if and only if a hold has outlasted the timeout |
| AppLocks.OutlastingHoldBreaks | backend/app/app_locks.py:69-112 | a hold that has outlasted the timeout lets the next task in beside it |
| AppLocks.ExclusionNeedsShortHolds | backend/app/app_locks.py:69-112 | every run in which some hold outlasts the timeout comes to a point from which one more caller makes two tasks inside |
| AppLocks.BoundIsAttained | backend/app/app_locks.py:69-122 | for every number of takeovers a run attains the bound |
| AppLocks.TwoFreshHolders | backend/app/app_locks.py:114-121 | after one takeover two tasks can be inside that have only just entered |
| AppLocks.UnstampedAcquirerIsDisplaced | backend/app/app_locks.py:101-109 | a task can be displaced between getting the lock and stamping the entry |
| AuditLog.FiltersMean | backend/app/audit_log.py:154-168 | a row passes the filters exactly when it is what the query asks for |
| AuditLog.AuditFilters | backend/app/audit_log.py:154-168 | the filter list that is built means exactly the query |
| AuditLog.ListAuditLogs | backend/app/audit_log.py:171-197 | one page: items, next cursor and total, with the clamped limit |
| AuditLog.PageSays | backend/app/audit_log.py:171-197 | a page is the first of the wanted rows after the cursor, newest first, as many as asked for between 1 and 200, with a cursor at the last one exactly when more remain, and the number of all wanted rows |
| AuditLog.SelectionIs | backend/app/audit_log.py:180-193 | the rows a page is cut from are exactly the wanted ones after the cursor, in descending order |
| AuditLog.PageFacts | backend/app/audit_log.py:188-196 | a page misses nothing before its next cursor and holds nothing after it |
| AuditLog.FollowingTheCursor | backend/app/audit_log.py:171-197 | with rows inserted between fetches nothing repeats, the order is descending, and no wanted row present throughout is skipped |
| AuditLog.QueryAfterCursor | backend/app/audit_log.py:180-193 | the query from the cursor of the n-th row finds the rest of the list |
| AuditLog.PagesAreSlices | backend/app/audit_log.py:171-197 | over a fixed table the pages are consecutive slices of the sorted selection, with a next cursor exactly while rows are left |
| AuditLog.WalkToTheEnd | backend/app/audit_log.py:171-197 | following the cursor to the end delivers exactly the wanted rows, each once, in order, in max(1, ceil(N/limit)) pages |
| ContextCompact.StripCodeClean | backend/app/context_compact.py:170-170 | no complete code block is left in an assistant text |
| ContextCompact.StripCodeSays | backend/app/context_compact.py:170-170 | every block between two fences, from the left and as short as can be, is replaced by the note, and the text around stays |
| ContextCompact.ShortenedSays | backend/app/context_compact.py:168-178 | an assistant message keeps role and calls; its text loses its blocks and what is beyond 500 characters |
| ContextCompact.ShortenIsStable | backend/app/context_compact.py:169-172 | a shortened text is bounded, free of code blocks, and unchanged by shortening it again |
| ContextCompact.PairRounds | backend/app/context_compact.py:282-293 | the rounds concatenate to the messages and all but the last end with their only assistant message |
| ContextCompact.RoundsCover | backend/app/context_compact.py:282-293 | the same of the specification, with the number of rounds |
| ContextCompact.SplitByRounds | backend/app/context_compact.py:296-320 | the older and the recent part concatenate to the messages |
| ContextCompact.RecentRounds | backend/app/context_compact.py:312-319 | the recent part has the asked number of rounds, or all when there are fewer |
| ContextCompact.LastRoundsAre | backend/app/context_compact.py:282-320 | the last n rounds are the one tail that starts after a round and has n rounds, or the whole list |
| ContextCompact.CompactCoding | backend/app/context_compact.py:148-198 | both modes against their specification |
| ContextCompact.WorkspaceSelection | backend/app/context_compact.py:163-196 | the output is exactly the messages of the last rounds, in order, with assistant texts rewritten, less the tool results whose call no kept message before them declares |
| ContextCompact.SurvivesSays | backend/app/context_compact.py:181-196 | a message survives unless it is a tool result whose call no assistant message before it declares |
| ContextCompact.NoOrphanIsLeft | backend/app/context_compact.py:181-196 | every kept tool result follows a kept assistant message that declares its call |
| ContextCompact.CompactingTwice | backend/app/context_compact.py:163-196 | compacting a compacted conversation changes nothing |
| ContextCompact.LastMessagesAreRounds | backend/app/context_compact.py:197-198 | the last 2 * max_rounds messages are the last max_rounds rounds if and only if the tail starts after a round and has that many |
| ContextCompact.AlternatingKeepsRounds | backend/app/context_compact.py:197-198 | in a conversation of questions and answers they are |
| ContextCompact.ToolCallsBreakTheTail | backend/app/context_compact.py:197-198 | with tool calls they need not be, and a kept tool result can be without its call |
| ContextCompact.TailHasNoOrphan | backend/app/context_compact.py:197-198 | a tail of a conversation whose tool results follow their calls has no orphan if and only if it does not start with a tool result |
| ContextCompact.LastMessagesAreOrphanFree | backend/app/context_compact.py:197-198 | so the result without a workspace has no orphan if and only if the message where the cut falls, 2 * max_rounds before the end, is not a tool result |
| ContextCompact.ChatTailIsOrphanFree | backend/app/context_compact.py:134-144 | the same of the one place where the chat mode cuts |
| ContextCompact.LongCallIsCutOff | backend/app/context_compact.py:134-144 | in chat mode a call with a text above the limit is cut off from its result |
| ContextCompact.CompactChat | backend/app/context_compact.py:134-144 | the longest tail within the character limit, or the last message alone |
| ContextCompact.ChatTailSays | backend/app/context_compact.py:134-144 | that tail has at most 30000 characters or is one message, and every longer one is too long |
| ContextCompact.Compact | backend/app/context_compact.py:54-90 | the summary message, if any, and what the mode makes of the messages |
| ContextCompact.SummaryGoesFirst | backend/app/context_compact.py:71-88 | a summary from before goes first, under its mark |
| ContextCompact.CompactWithSummary | backend/app/context_compact.py:92-128 | when a summary is written it covers a non-empty older part and what the mode makes of the recent part follows; otherwise the result is that without a new summary |
| ContextCompact.OlderIsThere | backend/app/context_compact.py:106-112 | above the trigger there is an older part |
| ContextCompact.RecentIsNotCut | backend/app/context_compact.py:121-123 | with a workspace the recent part is not cut a second time |
| ContextCompact.CleanToolResults | backend/app/context_compact.py:203-229 | exactly the tool results with at least keep_recent later ones are cut, and nothing else; none for keep_recent=0 |
| ContextCompact.OldSays | backend/app/context_compact.py:213-219 | a tool result is old when at least keep_recent tool results come after it |
| ContextCompact.SqueezedSays | backend/app/context_compact.py:220-225 | it keeps everything but its text, and of that the first 200 characters |
| ContextCompact.SqueezedNotes | backend/app/context_compact.py:222-224 | and notes how long it was |
| ContextCompact.CleaningIsComplete | backend/app/context_compact.py:203-229 | all older results are short if and only if keep_recent is not 0 or none was long to begin with |
| ContextCompact.KeepingNoneKeepsAll | backend/app/context_compact.py:215-217 | asked to keep none, it leaves a long result whole |
| ConfigPostprocess.UnlinkedIs | backend/app/config_postprocess.py:54-84 | the list holds exactly the unlinked dropdowns, each once, in order |
| ConfigPostprocess.DropdownSays | backend/app/config_postprocess.py:37-39 | which components are dropdowns |
| ConfigPostprocess.UnlinkedSays | backend/app/config_postprocess.py:54-72 | a dropdown is unlinked when its reference is blank or leads to no dictionary with a code |
| ConfigPostprocess.ItemSays | backend/app/config_postprocess.py:73-83 | its caption is the first given of label, name, last part of the model field and code; its key the model field, or form and caption |
| ConfigPostprocess.ConfigData.FindUnlinkedDropdownComponents | backend/app/config_postprocess.py:54-84 | the loop builds that list |
| ConfigPostprocess.ConfigData.WriteModelField | backend/app/config_postprocess.py:91-101 | the first field of the code in the first model of the code is rewritten and nothing else |
| ConfigPostprocess.PlaceSays | backend/app/config_postprocess.py:91-101 | a reference names model and field by what stands before and after its first dot, the first of each code |
| ConfigPostprocess.ChangedSays | backend/app/config_postprocess.py:87-90 | what a component becomes |
| ConfigPostprocess.RewrittenSays | backend/app/config_postprocess.py:96-99 | what the field becomes |
| ConfigPostprocess.ConfigData.SetComponentDict | backend/app/config_postprocess.py:87-101 | one dropdown and the field behind it are bound |
| ConfigPostprocess.ConfigData.BuildNameTable | backend/app/config_postprocess.py:122-128 | the table built by first-wins insertion |
| ConfigPostprocess.NameTableIs | backend/app/config_postprocess.py:122-128 | a key leads to the first dictionary that has it as name or normalised name |
| ConfigPostprocess.ConfigData.LinkByName | backend/app/config_postprocess.py:130-137 | the first pass: changes, count and rest |
| ConfigPostprocess.ConfigData.LinkByMapping | backend/app/config_postprocess.py:139-154 | the second pass: changes, count and rest |
| ConfigPostprocess.ConfigData.ReconcileDropdownDicts | backend/app/config_postprocess.py:104-160 | forms, models and report after both passes |
| ConfigPostprocess.EntriesSay | backend/app/config_postprocess.py:156-159 | what is reported of an item: caption, model field and form, in order |
| ConfigPostprocess.ConfigData.DowngradeUnbindableDropdowns | backend/app/config_postprocess.py:163-189 | forms, models and list after the downgrade |
| ConfigPostprocess.LastWriteWins | backend/app/config_postprocess.py:91-187 | a model field named by changes ends as the last of them says: a dropdown field bound to the code, or no dropdown and unbound |
| ConfigPostprocess.FieldFollowsDropdown | backend/app/config_postprocess.py:87-101 | the field behind a bound dropdown ends with the dropdown's dictionary, unless another bound dropdown shares the field |
| ConfigPostprocess.LatestBindingDecides | backend/app/config_postprocess.py:130-151 | of several bound dropdowns with one field, the one bound last decides: those by name before those by the mapping, each in order |
| ConfigPostprocess.WriteElsewhere | backend/app/config_postprocess.py:91-101 | a field that no change refers to is as before |
| ConfigPostprocess.BindingIsDefined | backend/app/config_postprocess.py:130-151 | a binding is to the stripped code of a defined dictionary, and by name never to an empty one |
| ConfigPostprocess.BindingSays | backend/app/config_postprocess.py:122-151 | what an item is bound to: the first dictionary that answers to its caption, else to its normalised caption, else the defined code that the mapping gives |
| ConfigPostprocess.ReconciledAt | backend/app/config_postprocess.py:104-160 | every component after a reconciliation; one that is not an unlinked dropdown is as before |
| ConfigPostprocess.UnlinkedAfter | backend/app/config_postprocess.py:104-160 | what a second look finds: exactly the items without a binding or bound to the empty code |
| ConfigPostprocess.CountsAddUp | backend/app/config_postprocess.py:114-160 | linked by name, relinked and unlinked add up to the initially unlinked |
| ConfigPostprocess.DowngradedAreTheUnlinked | backend/app/config_postprocess.py:104-189 | the downgraded are the reported unlinked if and only if no mapping sends a dropdown to a dictionary with a blank code |
| ConfigPostprocess.DowngradedAt | backend/app/config_postprocess.py:163-189 | a downgrade changes the unlinked dropdowns and nothing else |
| ConfigPostprocess.NoneIsLeft | backend/app/config_postprocess.py:163-189 | after a downgrade no dropdown is unlinked |
| ConfigPostprocess.RepairIsComplete | backend/app/config_postprocess.py:104-189 | after both steps no unlinked dropdown remains, bound components are untouched, and each unlinked one is bound as decided or turned into a text input |
| ConfigPostprocess.BlankCodeIsAccepted | backend/app/config_postprocess.py:147-151 | nothing is reported as unlinked and the dropdown is downgraded |

## Left out

- HTTP, event streams on the socket, databases and real file systems: a model call is the list of lines it delivers, the audit table a list of rows with distinct ids and integer times, a directory a map from names to contents, and the platform returns the menu tree it was sent.
- Prompts, templates, constants, authentication and the operations of other modules.
- Aliasing: two places of a configuration that share one Python object. Values are copied in the model.
- ReasoningSplit: the class with two empty tags, for which `feed` does not return; all other pairs are covered.
- LlmTransport: how an error is classified as retryable is a flag of the error; the delays between attempts, an abandoned generator and logging are not modelled. Fragments whose index is no integer in the streamed call are not modelled.
- FormScheduler: the identities of a form are given, since `_form_identity_map` draws them from another module; display names in issue texts are form indexes; Python's recursion limit is not modelled.
- DocDiffer: description texts, random action ids, the field count of an added model and `build_structure_index`. Options are compared by code only, as in the code.
- AggregatorsAgree: negative indexes; whether the two lists then are the same depends on the contents of the fragments.
- PatchConditions: the exact conditions assume names that are there and distinct, and distinct codes, on each side, and no old dictionary without a code under the new name of a changed one. Without that several entries answer to one name. Models that take over each other's names are covered where field names agree with field codes.
- ConfigDiff: the absent or empty old configuration, form components and processes, remote ids, data-loss warnings, the summary, and the names carried in change records.
- ObjectEntries: the regular expression that finds `export default {`; `ExtractBody` starts at its brace.
- SceneDirs: the loop over the two sides and the scenes, which treats each directory alike and independently; the theorems hold for any conversion of a semantic to Pascal case, and `capitalize` is a parameter of the code's own; the listing may be in any order; reading the index back assumes names without line breaks and file names without a slash.
- MenuMove: a target that is an empty dictionary, and the `children` entry that copies keep beside `submenus`: the posted tree is read through `submenus`.
- AppLocks: the lock that guards the registry, the order in which waiting tasks are served, and the half second after which a waiting task gives up (it may do so at any time).
- AuditLog: the text form of a cursor, taken to round-trip; the access check before the query; redaction of values.
- ContextCompact: an assistant message without a `content` key and a tool call without an id, for which the code raises; the dialogue text sent to the summarising model, whose answer is a parameter. A null and an empty `tool_calls` are one value.
- ConfigPostprocess: the lower-casing of a name is inside the normalisation parameter; entries of the lists that are no dictionaries; the model call that produces the mapping, which is any mapping; the same dropdown object listed twice.
