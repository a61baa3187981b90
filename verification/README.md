# ZeroClaw: a Dafny model of its text, history and merge logic

This project models the parts of ZeroClaw that decide something: the rewriter that keeps invented
links out of answers, the agent's turn loop over its conversation history, the parsers and printers
of tool calls and image markers, the OpenClaw migration, two release and queue guards of its CI, and
the JSON walks of its configuration and identity code. Each operation that changes something step by
step is a method, on a class where the source has an object, and is verified against a function of
its inputs or old state; the theorems are about those functions, for all inputs and all runs.

Run `dafny verify dfyconfig.toml --resource-limit 2000000 --verification-time-limit 0`.

## How the files fit together

| files | source |
|---|---|
| `Text`, `TextMeaning`, `Utf8`, `Json` | strings, what their operations compute, byte positions and JSON values shared by the rest |
| `LinkResolver`, `LinkEnforcer`, `LinkPasses` | `src/agent/source_links.rs`: the resolver, the three passes as functions and as methods |
| `LinkRepairs`, `LinkMatches` | which URL a link stands for, and where links and URLs stand, told by the texts alone |
| `LinkSlots`, `LinkPlaceholders`, `LinkMerging`, `LinkSafety`, `LinkIdentity`, `LinkBrackets`, `LinkReopening`, `LinkJoins`, `LinkIdempotence`, `LinkCounterexamples`, `LinkLoss` | what the three passes guarantee, and where they do not |
| `ChatMessages` | the chat message that providers, the agent and the image code share |
| `ToolTags`, `XmlToolCalls`, `XmlContents`, `Dispatcher` | `src/agent/dispatcher.rs` |
| `AgentLoop`, `AgentContents`, `AgentRuns`, `AgentPairing`, `AgentForgetting` | `src/agent/agent.rs`: the agent object, what a turn puts where, and runs of it |
| `JsonMerge`, `JsonConflicts`, `AgentMerge`, `AgentFills`, `MemoryImport`, `MemoryContents` | `src/migration.rs`: the loops, and what they do to values, settings and memories |
| `QueueHygiene`, `QueueIdentity`, `QueueCollect`, `QueueRounds` | `scripts/ci/queue_hygiene.py`: the plan, which runs belong together, the loops that compute it, what it selects and rounds under a cap |
| `PrereleaseGuard`, `ReleaseRuns` | `scripts/ci/prerelease_guard.py`: one verdict, and sequences of approved tags |
| `ImageMarkers`, `ImageRoundTrip`, `ImageForming`, `ImageMessages`, `ImageStripping` | `src/multimodal.rs` |
| `IdentityLists` | `src/identity.rs`: lists and summaries of nested JSON |
| `Redaction`, `ConfigPaths` | `src/util.rs` and `src/main.rs`: redaction and dot paths |
| `Classifier` | `src/agent/classifier.rs` |

## What came out false, and what holds instead

- Link safety needs fences. `[http](http://u)://e` with nothing recorded leaves `http://e` in the
  output (`LeakExample`), and so do the adjacent links `[http](http://u)[://e](http://v)`
  (`AdjacentLeakExample`). When no caption holds a URL, the text between two links is not empty, and
  every link has a non-URL character or the edge of the text on either side, the URLs of the output
  are exactly the recorded ones that the input's links resolve to (`OutputHoldsOnlyRecordedUrls`).
  For any links that no URL text runs into, every URL of the output is recorded exactly when every URL
  is that a caption holds or that runs, in the kept text, across the place of a dropped link
  (`OutputIsSafeIff`).
- `enforce` is not idempotent. With `http://k` recorded, removing the bare URL of
  `[x]http://u(http://k"z)` makes a Markdown link that the second run drops (`GluedExample`). With
  nothing recorded, `[a][(http://"z)](http://u)` becomes `[a](http://"z)` and then `a`, although it is
  fenced and holds no bare URL (`CaptionExample`). With `http://k` recorded,
  `[http://[b](http://u) [c](http://k)` becomes `http://[b [c](http://k)`, and the second run deletes
  all of it, the recorded link too (`LostLinkExample`). For fenced text and a ledger free of `&amp;`
  the exact condition is on the input, read from left to right, with a look ahead from a `]` to the
  first `)` or blank that remains (`EnforceIsIdempotentIff`). Once unrecorded links are dropped,
  - no `]` between the links ends a Markdown link, unless it is a recorded one with no URL text right
    before it, and
  - no recorded link, other than to a bare scheme, comes to stand behind an unclosed `[`, the first
    such on its line, that directly follows URL text which stays (a bare scheme is such text).

  It is met when captions hold no `[`, every `]` outside the links is followed, before the next link,
  by a character that is not `(` and starts no URL, no `[` outside the links directly follows a URL
  character, and no text behind a link starts with `[` (`EnforceIsIdempotent`).
- Queue hygiene cancels the newest run of a group when the listing repeats it, as overlapping pages
  do: the entry then supersedes itself. In a listing that repeats only whole entries the newest run
  is spared exactly when it is listed once (`NewestSparedIffListedOnce`).
- Queue hygiene keeps the runs of different pull requests apart, but a run without a pull request on a
  branch named `pr:7` belongs to the runs of pull request 7 when runs go by branch, or when it has no
  commit (`BranchLikePullRequest`). `MatesIff` says exactly which runs belong together.
- The prerelease guard lists `v<version>*` and does not look at the version of what it finds. With
  `v1.2.30-rc.1` present it approves `v1.2.3` without any prerelease of `1.2.3` and refuses
  `v1.2.3-alpha.1` (`ForeignTagExample`). The damage stays: after `v1.2.30-alpha.1` it approves
  `v1.2.3-beta.1` and then `v1.2.3-beta.2`, without an alpha of `1.2.3` (`DamagedRunExample`). Its
  verdicts on all new tags are the ones the version's own tags call for exactly in these cases
  (`VerdictsAreOwnIff`). Either the version stands at Alpha or is stable or has its own previous stage,
  and no foreign tag has a key above all own tags. Or it stands at Beta or Rc without its own previous
  stage, and no foreign tag is at that previous stage and none above the stage it stands at. Or it
  stands at Rc without its own Beta and a foreign tag is stable. In an approved run without foreign
  tags a version never lacks its previous stage (`RunsAreJudgedByTheirOwn`).
- Image markers: parsing can leave a marker in the text it returns (`[IMA[IMAGE:x]GE:y]`), and an
  unclosed `[IMAGE:` swallows the first marker composed after it. The round trip holds exactly when
  the text names no image itself and, if references follow, has no unclosed marker
  (`RoundTripIff`). Stripping leaves no image exactly when, reading each user message as received,
  at no marker that is taken out does the text kept before it end in the beginning of `[IMAGE:` that
  the text kept behind it completes (`StripAllLeavesNoImageIff`, `StripHistoryKeepsLastIff`); it is
  enough that no marker directly follows such a beginning (`StripAllLeavesNoImage`).
- The memory import compares signatures of content, NUL and category name. Two memories share one
  without being the same when a category name holds a NUL (`NulNamesCollide`); without NULs in the names
  signatures are equal exactly for the same memory (`SignatureMeans`).
- The documentation of `min_length` and `max_length` (`src/config/schema.rs:4280-4285`) speaks of
  characters; the code compares bytes, and so does the model. A message of the one character U+00E9 is
  excluded by a rule for at most one character (`OneCharacterExample`); both readings agree for every
  rule exactly on ASCII messages (`LengthsAgreeIff`).

## Model

| member | source | states |
|---|---|---|
| LinkResolver.ResolveIgnoresOrder | src/agent/source_links.rs:94-122 | The scan over the recorded URLs in any iteration order gives the same answer: the order of the hash set never decides a link |
| LinkResolver.ResolveStaysInLedger | src/agent/source_links.rs:94-122 | An answer is always a recorded URL; a URL resolves to itself exactly when it is recorded |
| LinkResolver.AmbiguousKeyResolvesToNothing | src/agent/source_links.rs:94-122 | Two recorded URLs that share the loose key of an unrecorded one leave it unresolved |
| LinkResolver.SubsequenceIsEmbedding | src/agent/source_links.rs:88-91 | The greedy subsequence test succeeds exactly when an order-preserving embedding of the path segments exists |
| LinkResolver.UrlsInHaveShape | src/agent/source_links.rs:57-66 | Everything that enters the ledger has a scheme, only URL characters and no trailing punctuation: the shape the safety theorems ask of the ledger |
| LinkRepairs.ResolveIff | src/agent/source_links.rs:70-122 | An unrecorded URL stands for the one recorded URL with its address (equal but for case, scheme, `www.` and slashes at the end) or else, when there is not exactly one, for the one recorded URL near it (same host, same last path segment, one path being the other with segments left out), and for nothing otherwise |
| LinkRepairs.CaseIsRepaired | src/agent/source_links.rs:70-122 | A link that differs in case from one recorded URL only stands for it |
| LinkRepairs.RewrittenIsRepaired | src/agent/source_links.rs:70-122 | So does one that differs in scheme, `www.` or slashes at the end |
| LinkRepairs.ExtraSegmentsAreRepaired | src/agent/source_links.rs:103-122 | So does one with path segments put in or left out before the last |
| LinkRepairs.KeyIsBare | src/agent/source_links.rs:70-79 | The loose key is the lower-cased URL without its leading schemes, `www.` and slashes at the end |
| LinkRepairs.EscapedUrlIsRead | src/agent/source_links.rs:65-67 | A URL with `&` escaped and punctuation behind it is looked up as the URL |
| LinkMatches.UrlMatchesStand | src/agent/source_links.rs:28-29 | The bare URLs are the texts where a URL starts, leftmost first, each as far as URL characters reach, and no URL starts outside them |
| LinkMatches.ParseIsLeftmost | src/agent/source_links.rs:30-31 | The text is cut at its leftmost Markdown link, and no link starts in the text before it |
| LinkEnforcer.UnparseParse | src/agent/source_links.rs:138-158 | Cutting a text into gaps and Markdown links loses nothing: printing the pieces gives the text back |
| LinkPasses.StashLinks | src/agent/source_links.rs:138-158 | First pass: the slotted text, the stash and both report lists are those of the document's links, in order |
| LinkPasses.RewriteUrls | src/agent/source_links.rs:160-177 | Second pass: every bare URL of the slotted text is rewritten once, left to right, and reported in order |
| LinkPasses.RestoreSlots | src/agent/source_links.rs:179-192 | Third pass: the loop over the parts between NULs is the restoration function |
| LinkPasses.Enforce | src/agent/source_links.rs:135-193 | The three loops, with the ledger in any iteration order, compute the specified check |
| LinkPlaceholders.RestorationIsTotal | src/agent/source_links.rs:135-193 | For NUL-free text and ledger every placeholder that survives rewriting is whole and numbers a stashed link, the output is those links put back, and the output is NUL-free |
| LinkSlots.RewriteToksCommutes | src/agent/source_links.rs:160-177 | Rewriting the rendered slotted text is rewriting its text tokens and leaving its slots |
| LinkMerging.SeparatedIsMerged | src/agent/source_links.rs:135-193 | When no bare URL runs into a placeholder, three passes equal one: each gap rewritten, each link replaced, in place |
| LinkSafety.OutputHoldsOnlyRecordedUrls | src/agent/source_links.rs:135-193 | Link safety: for fenced text, in which two links never touch, every URL read from the output is recorded, and they are, in order, exactly what the input's links resolve to |
| LinkJoins.OutputIsSafeIff | src/agent/source_links.rs:135-193 | For links that no URL text runs into, every URL of the output is recorded exactly when every URL is that a caption holds or that runs, in the kept text, across the place of a dropped link |
| LinkSafety.RewrittenGap | src/agent/source_links.rs:160-177 | The URLs of rewritten text are the resolutions of the URLs of the text, in order: removal glues no new URL together |
| LinkSafety.ReportIsExact | src/agent/source_links.rs:144-176 | A repair is listed exactly for a link that resolves to a different recorded URL, a removal exactly for one that resolves to nothing |
| LinkSafety.EnforceReportsItsLinks | src/agent/source_links.rs:135-193 | The report of a whole run lists exactly the Markdown targets and outer bare URLs of the text that are repaired, each with its recorded URL, and those that stand for nothing |
| LinkIdentity.IdentityExactly | src/agent/source_links.rs:135-193 | `enforce` returns the text unchanged with empty lists exactly when every link is recorded in the form in which it is written |
| LinkBrackets.QuietReadsLinks | src/agent/source_links.rs:28-31 | One pass over the brackets of a text with bounded state tells whether every Markdown link in it is recorded and follows no URL text |
| LinkReopening.AsWrittenIff | src/agent/source_links.rs:135-193 | Where every URL is recorded, all links stand as written exactly when every Markdown link has a recorded target and no URL text before it |
| LinkIdempotence.QuietMerged | src/agent/source_links.rs:135-193 | The bracket pass over the text that remains says yes exactly when nothing is reopened between the links of the input |
| LinkIdempotence.EnforceIsIdempotentIff | src/agent/source_links.rs:135-193 | For fenced text and a ledger without `&amp;` a second run changes and reports nothing exactly when in the input, once unrecorded links are dropped, no `]` between the links ends a link, unless a recorded one with no URL text right before it, and no recorded link (other than to a bare scheme) stands on a line whose first unclosed `[` before it directly follows URL text |
| LinkIdempotence.EnforceIsIdempotent | src/agent/source_links.rs:135-193 | One direction, for callers: so it is for fenced text with captions without `[`, every `]` outside links followed before the next link by a character that is neither `(` nor the start of a URL, no `[` outside links behind a URL character and none at the start of a text behind a link, the last one included |
| LinkCounterexamples.UnfencedLinkLeaksUrl | src/agent/source_links.rs:135-193 | A dropped link whose caption and surroundings spell a URL leaves that unrecorded URL in the output |
| LinkCounterexamples.LeakExample | src/agent/source_links.rs:135-193 | The concrete text for that |
| LinkCounterexamples.AdjacentLinksJoin | src/agent/source_links.rs:135-193 | Two dropped links side by side leave their captions joined |
| LinkCounterexamples.AdjacentLeakExample | src/agent/source_links.rs:135-193 | Two adjacent links whose captions hold no URL leave an unrecorded one |
| LinkCounterexamples.SingleRemovedLinkLeaksIff | src/agent/source_links.rs:135-193 | One dropped link between texts without URLs, the first not ending in a bare scheme: the output is the pieces joined, and it is free of URLs exactly when none starts in the joined text before the end of the caption |
| LinkCounterexamples.GluedUrlBreaksIdempotence | src/agent/source_links.rs:135-193 | Removing a bare URL that stands between `]` and `(` makes a Markdown link that the second run drops |
| LinkCounterexamples.GluedExample | src/agent/source_links.rs:135-193 | The concrete text for that |
| LinkCounterexamples.CaptionBreaksIdempotence | src/agent/source_links.rs:135-193 | A dropped link whose caption is a target in parentheses makes a Markdown link with the bracket before it, and the second run drops that one |
| LinkCounterexamples.CaptionExample | src/agent/source_links.rs:135-193 | The concrete text for that, fenced |
| LinkLoss.RecordedLinkIsLost | src/agent/source_links.rs:135-193 | A dropped link whose caption holds a `[` right behind a bare scheme, before a recorded link: the text is fenced, and the second run deletes the recorded link with everything else |
| LinkLoss.LostLinkExample | src/agent/source_links.rs:135-193 | The concrete text for that, without a `]` outside its links |
| ToolTags.SequentialIsSimultaneous | src/agent/dispatcher.rs:39-45 | Replacing tag variants one after the other equals one left-to-right pass that replaces all of them, for any list of tag pairs |
| ToolTags.NoVariantRemains | src/agent/dispatcher.rs:39-45 | No variant is left, not even one formed by replacements around it |
| ToolTags.NormalizationIsOneSubstitution | src/agent/dispatcher.rs:39-45 | The six replacements are one simultaneous substitution, leave none of the six variants and are idempotent |
| XmlToolCalls.ParseXmlToolCalls | src/agent/dispatcher.rs:33-93 | On any input the loop terminates within bounds and computes the specified text and calls |
| XmlToolCalls.ParseInvertsPrint | src/agent/dispatcher.rs:33-93 | Printing text interleaved with tool-call blocks in any tag variant and parsing gives the same calls in order and the trimmed non-empty texts joined by newlines |
| XmlContents.AnyResponseIsRead | src/agent/dispatcher.rs:33-93 | Any response is cut at its tags into texts and blocks; each block whose body is JSON with a non-empty text as name gives one call, in order, with that name, its arguments or an empty object and no id, and no other block gives one; the texts that are not blank are trimmed and joined, that before an unclosed tag twice |
| XmlContents.PrintedScriptIsRead | src/agent/dispatcher.rs:33-93 | The same for printed text and blocks in any tag variants |
| XmlContents.TagsAre | src/agent/dispatcher.rs:39-45 | The four opening tags, and the four closing ones, which are these with a slash |
| XmlToolCalls.EncodedCallIsRead | src/agent/dispatcher.rs:55-80 | A block whose body decodes to a named call yields that call, with any JSON decoder |
| XmlToolCalls.PrintedCallsAreRead | src/agent/dispatcher.rs:33-93 | Printing a list of names and arguments through an encoder, with text between, and parsing returns exactly that list |
| Dispatcher.FormatNative | src/agent/dispatcher.rs:194-206 | One result per execution, with its id and output |
| AgentContents.ResponsesMean | src/agent/dispatcher.rs:101-104 | The text of a response, empty when there is none, and its calls |
| AgentContents.NativeCallsMean | src/agent/dispatcher.rs:173-192 | A native call keeps its name and id and gets the decoded arguments, or an empty object |
| AgentContents.PayloadsSay | src/agent/dispatcher.rs:216-243 | The wire payloads hold the text, a description of each call in order with its signature, the reasoning, and the id and content of a result |
| Dispatcher.WireComesFrom | src/agent/dispatcher.rs:212-245 | Every provider message is part of the stretch of some history message |
| Dispatcher.WireAt | src/agent/dispatcher.rs:212-245 | Each history message occupies its own stretch of the provider messages, in order, with no message of another between |
| AgentLoop.Agent.ClearHistory | src/agent/agent.rs:251-253 | The history is emptied and nothing is sent |
| AgentLoop.Agent.Trim | src/agent/agent.rs:361-386 | The partition and drain compute the trimmed history |
| AgentLoop.Agent.ExecuteTools | src/agent/agent.rs:402-462 | One result per call, in order, each from its own tool's outcome or the unknown-tool error |
| AgentLoop.Agent.Iteration | src/agent/agent.rs:564-669 | One iteration shows the provider the history it finds, and either ends the turn as specified or leaves the history from which the specified rest goes on |
| AgentLoop.Agent.Turn | src/agent/agent.rs:488-669 | For any provider answers, tool outcomes and loop verdicts the turn leaves the specified history and result and shows the provider the specified histories |
| AgentContents.TurnUnfolds | src/agent/agent.rs:488-669 | A turn puts the user's message behind the history, or behind the system message of a new one; each later call sees the one before it plus the model's text, its calls, a message with the outputs of exactly these calls, trimmed, and the warning; and the turn ends with the answer, the provider's error, the detected loop or the last iteration, and the history each of them leaves |
| AgentContents.FirstCallSeesUser | src/agent/agent.rs:488-582 | The first call of a turn sees the old history and then the user's message |
| AgentContents.AnswerEndsHistory | src/agent/agent.rs:584-612 | A turn that succeeds answers with the provider's text, and the history ends with it |
| AgentContents.RoundCarries | src/agent/agent.rs:402-462 | The results message of a round holds, in order and with the ids, the tool's own output when it succeeded and otherwise the error or the unknown tool |
| AgentPairing.EveryCallStaysPaired | src/agent/agent.rs:361-669 | Over every run of turns and clears with the native dispatcher, at every provider call each assistant tool-call message is followed at once by results for exactly its ids in order, and each results message except possibly the first after the system message follows its calls; all other messages behind the system message are the user's or the assistant's |
| AgentPairing.WireStaysPaired | src/agent/dispatcher.rs:173-245 | The same on the provider's messages: the payload of each tool call is followed by one tool message per id, in order, for any codec that reads back the payloads of this history |
| AgentPairing.ToolMessagesAreAnswers | src/agent/dispatcher.rs:212-245 | Conversely every tool message among the provider's messages belongs to the results right behind the system message, or stands at the place of its id behind the payload of the call it answers |
| AgentRuns.TrimKeepsSuffix | src/agent/agent.rs:361-386 | A history that starts with its only system message is trimmed to that message and the longest allowed suffix of the rest |
| AgentRuns.TrimIsIdempotent | src/agent/agent.rs:361-386 | Trimming twice is trimming once, for any history |
| AgentRuns.IterateIsBounded | src/agent/agent.rs:564-669 | From any iteration on: at most the remaining number of provider calls, and each after the first sees at most one message more than the limit besides the system message |
| AgentRuns.TurnIsBounded | src/agent/agent.rs:488-669 | A turn makes at most `max_tool_iterations` calls; calls after the first see at most one non-system message over the limit, and a successful turn ends within it |
| AgentRuns.RunsStayTidy | src/agent/agent.rs:251-669 | Over every run the history is empty or starts with its only system message, and every provider call sees one |
| AgentForgetting.TighterLimitOnlyForgets | src/agent/agent.rs:361-669 | Two agents that differ only in the history limit, given the same inputs, provider answers, tool outcomes and loop verdicts, show the provider histories of which the tighter one's are the other's with older messages dropped, at every call of every run |
| JsonMerge.MergePreservingTarget | src/migration.rs:790-827 | The recursive merge computes the merged value and adds exactly its conflicts and duplicates to the statistics, whatever the order of keys |
| JsonMerge.MergeExtends | src/migration.rs:790-827 | Target scalars stay, arrays gain a suffix, objects gain keys, only nulls are filled, at every depth |
| JsonMerge.MergeAbsorbs | src/migration.rs:790-827 | Every source key and every source array item is in the result wherever the target is an object or array of the same kind |
| JsonMerge.MergeAllExtends | src/migration.rs:790-827 | The same over any sequence of merges |
| JsonMerge.MergeIsIdempotent | src/migration.rs:790-827 | Merging the same source again changes nothing and reports the same conflicts |
| JsonConflicts.MergeCountsClashes | src/migration.rs:790-827 | The statistics count exactly the paths at which target and source clash, and the source items skipped because an equal one stands in the target or before it |
| JsonConflicts.AppendedInOrder | src/migration.rs:790-827 | A merged array is the target's with exactly the new source items behind it, in their order |
| AgentMerge.DelegateAgent.MergeFrom | src/migration.rs:595-711 | All fields and all counters after merging one agent, and `changed` exactly when something changed |
| AgentMerge.DelegateAgent.MergeTools | src/migration.rs:677-696 | Tools appended, counted and skipped as specified |
| AgentMerge.MergePreservesTarget | src/migration.rs:595-711 | Settled names, texts and temperature, every plain setting and the old tools as a prefix survive a merge |
| AgentMerge.AppendToolsGrows | src/migration.rs:677-696 | Old tools stay in front; what is added is new, trimmed and distinct; no named tool is lost |
| AgentFills.MergeFills | src/migration.rs:595-711 | Every setting after a merge: a blank name takes the source's that has content, a missing or blank text the source's, a missing temperature and empty capabilities the source's, all else stays |
| AgentFills.ConflictsAreOverruled | src/migration.rs:595-711 | The conflicts are the settings in which the merged agent does not have what the source asks for |
| AgentFills.ToolsAreMerged | src/migration.rs:677-696 | The tools are the target's and then the newly named ones of the source in order, and the repeated names are counted |
| AgentFills.RegistryIsTallied | src/migration.rs:572-593 | The counters of a whole merge, agent by agent against the one registered under its name |
| AgentMerge.MergeAgentIsIdempotent | src/migration.rs:595-711 | Merging the same agent again changes nothing |
| AgentMerge.AgentRegistry.MergeAll | src/migration.rs:572-593 | All agents and all counters after merging a list of agents into the registry, and the returned flag |
| AgentMerge.MergeAgentsByName | src/migration.rs:572-593 | Name by name the result is the merge of old and source agent, whichever exist |
| AgentMerge.AnyMergedIff | src/migration.rs:572-593 | For distinct names the returned flag is true exactly when the registry differs |
| AgentMerge.MergeAgentsIsIdempotent | src/migration.rs:572-593 | A second merge changes no agent and returns false |
| MemoryImport.Memory.ImportEntries | src/migration.rs:213-241 | The loop leaves the specified store, counters and success |
| MemoryImport.Memory.NextAvailableKey | src/migration.rs:1187-1196 | The first free renamed key, or the failure after the last attempt |
| MemoryImport.SmallStoresAllocate | src/migration.rs:1187-1196 | A renamed key is always found while the store holds fewer than 10,000 keys |
| MemoryImport.SmallImportsSucceed | src/migration.rs:213-241 | An import succeeds whenever old keys and entries together are at most 10,000 |
| MemoryImport.ImportNeverOverwrites | src/migration.rs:213-241 | Every old key keeps its value, the store grows by the imported entries, renames are accounted for, and imported, unchanged and duplicate entries add up to the candidates |
| MemoryImport.ImportCovers | src/migration.rs:213-241 | After a successful import every entry's signature is in the store or its key holds the same trimmed content |
| MemoryContents.ImportHoldsEntries | src/migration.rs:213-241 | After a successful import, for every entry the store holds a memory with the same trimmed content and displayed category, or the entry's key holds its content |
| MemoryContents.NewKeysHoldEntries | src/migration.rs:213-241 | Old keys keep their memories, and every new key holds content and category of an entry, under the key it asked for or that with a number from 1 to 10,000 |
| MemoryContents.NewEntriesAreImported | src/migration.rs:213-241 | An entry whose memory neither the old store nor an earlier entry has, and whose key does not hold its content when its turn comes, is imported under a new key |
| MemoryContents.CountersMean | src/migration.rs:213-241 | The counters count the entries whose key held their content, the other held memories, the new ones, and those whose key was taken |
| MemoryContents.NulNamesCollide | src/migration.rs:1018-1020 | Two memories that share a signature because one category name holds a NUL |
| MemoryContents.SignatureMeans | src/migration.rs:1018-1020 | Signatures are equal exactly for the same trimmed content and displayed category |
| MemoryImport.ImportIsIdempotent | src/migration.rs:211-241 | Importing any of the same entries again, in any order and multiplicity, imports nothing and leaves the store unchanged |
| MemoryImport.ReimportIsIdempotent | src/migration.rs:211-241 | The same for the same list even with blank keys |
| MemoryImport.NormalizedKeysAreKeyed | src/migration.rs:1179-1185 | The readers never produce a blank key, which the previous theorem asks for |
| MemoryImport.Deduplicate | src/migration.rs:250-273 | The loop keeps the first entry of each signature |
| MemoryImport.RetainedAreFirsts | src/migration.rs:250-273 | The kept entries have distinct signatures, every signature is represented, and a second pass keeps everything |
| MemoryContents.RetainedOnce | src/migration.rs:250-273 | Exactly one of all entries with the same key, content and displayed category is kept |
| QueueCollect.CollectCandidates | scripts/ci/queue_hygiene.py:198-282 | The loops over runs, groups and ids raise exactly when two runs of one group have an id that is no number or times with and without a zone, or such times meet in the plan, and otherwise return the plan |
| QueueHygiene.PlanMembers | scripts/ci/queue_hygiene.py:198-282 | The plan is sorted by time and id and holds exactly the listed runs with a reason, with all their reasons |
| QueueHygiene.SortedUnique | scripts/ci/queue_hygiene.py:276-282 | Only one sorted plan has given members |
| QueueIdentity.MatesIff | scripts/ci/queue_hygiene.py:177-235 | Two runs are in one group exactly when both take part, workflow and event agree, and the pull-request numbers do, or, without numbers, branch and (unless by branch) commit, or one's branch is named like the other's pull request |
| QueueIdentity.SupersededByItsOwn | scripts/ci/queue_hygiene.py:198-254 | A superseded run gives way to a run of its own group, never to one of another pull request |
| QueueIdentity.PlannedIff | scripts/ci/queue_hygiene.py:198-282 | With distinct ids a run is planned exactly when its workflow is obsolete or a later run with the same target takes part |
| QueueIdentity.BranchLikePullRequest | scripts/ci/queue_hygiene.py:177-195 | A branch named like a pull request joins its runs |
| QueueRounds.PlanIsSelection | scripts/ci/queue_hygiene.py:198-282 | With distinct ids a run is planned exactly when it is obsolete or its identity group has a newer run, named as its superseder |
| QueueRounds.NewestIsSpared | scripts/ci/queue_hygiene.py:198-282 | The newest run of a group is not planned unless obsolete |
| QueueRounds.PlanAfterBatch | scripts/ci/queue_hygiene.py:198-344 | Planning again after one capped batch is gone gives exactly the old plan without that batch |
| QueueRounds.RoundsConverge | scripts/ci/queue_hygiene.py:198-344 | Repeated rounds under any cap of at least one end, are full except possibly the last, and cancel exactly the uncapped plan in order |
| QueueRounds.RepeatedIsStale | scripts/ci/queue_hygiene.py:198-282 | An entry listed twice in a deduplicated workflow always gets a reason |
| QueueRounds.NewestSparedIffListedOnce | scripts/ci/queue_hygiene.py:198-282 | In a listing that repeats whole entries, the newest run is spared exactly when it is listed once |
| PrereleaseGuard.ParsePrint | scripts/ci/prerelease_guard.py:14-50 | Printing a version, stage and number and parsing gives them back |
| PrereleaseGuard.ParsedIsPrinted | scripts/ci/prerelease_guard.py:14-50 | Nothing else parses: every accepted tag is the print of what was read |
| PrereleaseGuard.HighestStageEntry | scripts/ci/prerelease_guard.py:134-147 | An entry of maximal key, none exactly for no entries |
| PrereleaseGuard.SiblingEntries | scripts/ci/prerelease_guard.py:315-318 | Exactly the parsing tags listed for the version other than the tag itself |
| PrereleaseGuard.StageViolations | scripts/ci/prerelease_guard.py:315-376 | Each of the three stage violations is reported exactly when a sibling tag, or its absence, causes it |
| PrereleaseGuard.Guard | scripts/ci/prerelease_guard.py:263-428 | Exit on an unreadable tag; otherwise each of the eight violations is reported exactly when it applies, and none exactly when the stage checks, the policy, reachability and the Cargo version all pass |
| ReleaseRuns.RunAdvances | scripts/ci/prerelease_guard.py:336-376 | In any sequence of tags each approved against the earlier ones, (stage rank, number) strictly increases among the tags of a version, whatever other tags exist |
| ReleaseRuns.OwnListingIsIgnored | scripts/ci/prerelease_guard.py:315-318 | The verdict on a tag does not depend on whether the tag itself is listed |
| ReleaseRuns.StableIsLast | scripts/ci/prerelease_guard.py:336-376 | Nothing of a version follows its stable tag |
| ReleaseRuns.EarlierStagesPresent | scripts/ci/prerelease_guard.py:342-351 | Without foreign tags every earlier stage is there before a later one |
| ReleaseRuns.VerdictsAreOwnIff | scripts/ci/prerelease_guard.py:315-376 | In any repository all verdicts on new tags are decided by the version's own tags exactly when the foreign tags are harmless: each at or below some own tag; or, for a version at Beta or Rc without its own previous stage, none at the previous stage and none above the stage it stands at, or a stable one above an Rc |
| ReleaseRuns.RunsAreJudgedByTheirOwn | scripts/ci/prerelease_guard.py:315-376 | After any approved run without foreign tags every further verdict is the one the version's own tags call for |
| ReleaseRuns.UncoveredBlocks | scripts/ci/prerelease_guard.py:315-376 | While the version has its own previous stage, a foreign tag above all own tags makes the guard refuse some tag that its own version allows |
| ReleaseRuns.OrphanDiffers | scripts/ci/prerelease_guard.py:315-376 | For a version without its own previous stage, harmful foreign tags make the guard decide some new tag differently |
| ReleaseRuns.ForeignTagExample | scripts/ci/prerelease_guard.py:315-376 | A concrete foreign tag that makes the guard approve and refuse wrongly |
| ReleaseRuns.DamagedRunExample | scripts/ci/prerelease_guard.py:315-376 | An approved run with one foreign tag below the own one, after which the guard approves `v1.2.3-beta.2` without an alpha of its version |
| ImageMarkers.ParseImageMarkers | src/multimodal.rs:56-89 | The cursor loop stays in bounds, ends, and takes out exactly the closed markers with a reference |
| ImageMarkers.ComposeMultimodalMessage | src/multimodal.rs:240-259 | The loop writes the trimmed text, a blank line and one marker per line |
| ImageRoundTrip.RoundTripIff | src/multimodal.rs:56-89 | Composing and parsing gives back the trimmed text and the references exactly when the text names no image and, if references follow, has no unclosed marker |
| ImageRoundTrip.PlainTextRoundTrip | src/multimodal.rs:240-259 | The round trip for every text without the marker prefix |
| ImageRoundTrip.NestedMarkerExample | src/multimodal.rs:56-89 | Taking one marker out can leave another |
| ImageMessages.PrepareMessages | src/multimodal.rs:182-238 | Too many images are refused with both numbers; otherwise message by message the prepared ones, or the first unusable image of the first message that has one |
| ImageMessages.PreparedReadsBackIff | src/multimodal.rs:182-259 | Roles and image-free messages are kept; any other message reads back as its text and normalised images exactly when its text is faithful |
| ImageMessages.PrepareKeepsCount | src/multimodal.rs:91-97 | With faithful texts every message, and so the whole list, keeps its number of images |
| ImageMessages.PrepareTwice | src/multimodal.rs:182-238 | Preparing prepared messages with faithful texts composes each text again with its references normalised twice, whatever the normaliser does to its own results |
| ImageForming.NoImageIsLeftIff | src/multimodal.rs:56-89 | What is left of a text names no image exactly when none forms: at no marker taken out does the kept text before it end in the beginning of a prefix that the kept text behind it completes to a marker with a reference |
| ImageForming.ApartFormsNothing | src/multimodal.rs:56-89 | None forms when no marker that is taken out directly follows such a beginning |
| ImageStripping.StripAllLeavesNoImageIff | src/multimodal.rs:136-165 | After stripping all messages no image is left exactly when none forms in any user message as received |
| ImageStripping.StripAllLeavesNoImage | src/multimodal.rs:136-165 | So it is when in every user message the markers stand apart from the beginnings of others |
| ImageStripping.ComposedIsStripped | src/multimodal.rs:106-165 | Of a composed message stripping leaves the trimmed text, or the placeholder when there were only images, and with a note the text and a line that counts them |
| ImageStripping.NoteCounts | src/multimodal.rs:136-165 | The note holds the count in digits between its fixed words |
| ImageStripping.StrippedOnes | src/multimodal.rs:106-165 | Only user messages are stripped; the last one is kept in the history, and gets the note otherwise when it holds images |
| ImageStripping.StripHistoryKeepsLastIff | src/multimodal.rs:106-130 | Count, roles, other messages and the last user message are kept, and only that one still has images exactly when none forms in any other user message as received |
| ImageStripping.StrippingKeepsBlankness | src/multimodal.rs:106-165 | A message is blank after stripping exactly when it was blank before |
| IdentityLists.DedupeNonEmpty | src/identity.rs:718-733 | The nested loops compute the deduplication function |
| IdentityLists.ListFromValue | src/identity.rs:690-716 | The recursion over arrays and object summaries terminates and computes the specified list |
| IdentityLists.SummarizeInto | src/identity.rs:660-688 | The accumulator only grows, by exactly the parts of the object |
| IdentityLists.ListIsOneDedupe | src/identity.rs:690-733 | However arrays are nested, the list is one deduplication of the leaf words in order |
| IdentityLists.DedupeFirst | src/identity.rs:718-733 | Deduplicating a part first never changes the deduplication of the whole |
| IdentityLists.ListIsWordList | src/identity.rs:690-733 | The list is trimmed, without blanks, pairwise distinct ignoring ASCII case, names every leaf word and nothing else |
| IdentityLists.ObjectsAreTitled | src/identity.rs:690-716 | An object is listed as its name or else its title |
| IdentityLists.FlatPartsAre | src/identity.rs:660-688 | The parts of a flat object are, key by key, the key with blanks for underscores behind its prefix and the trimmed text of the field, without keys that start with `@` and fields without text |
| Redaction.RedactConfigSecrets | src/main.rs:1387-1413 | The walk over all fields and items computes the redaction with the configuration's keys |
| Redaction.RedactionIsExact | src/util.rs:139-159 | Two values have the same redaction exactly when they agree outside masked keys, and under those have the same mask |
| Redaction.RedactIsIdempotent | src/util.rs:139-159 | A redacted value agrees with the original and is its own redaction |
| Redaction.RedactionsSettle | src/util.rs:121-159 | Both redactions, with their keys and masks, are idempotent on every value |
| Redaction.ConfigSecretsAreHidden | src/main.rs:1387-1413 | Under a secret configuration key nothing of a text or list shows but that it is not empty; anything else shows |
| Redaction.LogSecretsAreHidden | src/util.rs:139-159 | Under a sensitive key nothing shows in a log |
| Redaction.SensitiveIff | src/util.rs:121-137 | A key is sensitive when one of the parts stands in it, in any case |
| ConfigPaths.LookupRedacted | src/main.rs:1280-1290 | What any dot path finds in the redacted configuration, also through and beyond a masked key |
| ConfigPaths.RedactCommutesWithLookup | src/main.rs:1387-1413 | On a path without masked keys redacting and looking up commute |
| ConfigPaths.ConfigGet | src/main.rs:1280-1290 | `config get` shows what the path theorem says, or that the path is not found |
| ConfigPaths.ConfigSet | src/main.rs:1323-1341 | `config set` returns the tree with the existing leaf replaced, or that the path is not found |
| ConfigPaths.AssignableIffThere | src/main.rs:1328-1341 | A leaf can be set exactly when it can be looked up |
| ConfigPaths.ReadAfterWrite | src/main.rs:1328-1341 | The value set is the value found |
| ConfigPaths.WriteKeepsOthers | src/main.rs:1328-1341 | No path apart from it changes |
| ConfigPaths.WritingBackIsNothing | src/main.rs:1328-1341 | Setting what is there changes nothing |
| ConfigPaths.GetShowsWhatWasSet | src/main.rs:1280-1341 | After `config set` on an unmasked key `config get` shows the redacted new value |
| TextMeaning.TrimIs | src/agent/dispatcher.rs:49-52 | Trimming cuts the blanks at both ends and nothing else |
| TextMeaning.SplitIs | src/agent/source_links.rs:82-86 | Splitting at a character and joining with it are inverse, and no part holds it |
| TextMeaning.LowerIs | src/identity.rs:718-733 | ASCII lower-casing changes the capital letters A to Z and nothing else |
| Utf8.FloorBoundary | src/util.rs:50-60 | The greatest character boundary at or below the index, never four bytes away |
| Utf8.BoundaryIffPrefix | src/util.rs:50-60 | Boundaries are exactly the byte lengths of prefixes |
| Utf8.CharLenIsLeast | src/util.rs:50-60 | A character takes the least number of bytes its code point fits into, in the encoding of section 3 of RFC 3629 |
| Classifier.SortRules | src/agent/classifier.rs:31-32 | Descending priorities, and the rules of each priority in their old order |
| Classifier.Classify | src/agent/classifier.rs:20-66 | No decision exactly when disabled or nothing matches; otherwise that of the earliest matching rule of the highest matching priority |
| Classifier.FirstIsBest | src/agent/classifier.rs:31-62 | The first match after a stable sort is that rule |
| Classifier.MatchesIff | src/agent/classifier.rs:28-55 | A rule matches exactly when the length in bytes is within its bounds and a keyword occurs ignoring case or a pattern as it is |
| Classifier.OrderDoesNotMatter | src/agent/classifier.rs:31-62 | With pairwise distinct priorities every permutation of the rules comes to the same decision, or to none |
| Classifier.LengthsAgreeIff | src/agent/classifier.rs:29-44 | The length test in bytes is the documented test in characters for every rule exactly when the message is ASCII |
| Classifier.OneCharacterExample | src/agent/classifier.rs:29-44 | A message of one character that a rule for at most one character does not match |

## Left out

- Provider calls, tool execution, memory backends, SQLite, files, git and the GitHub API: their results are parameters, arbitrary at each step, or a finite map.
- The loop detector: its verdict is an arbitrary input at each iteration of a turn; the memory context and the research phase, which only change the text of the user message.
- `str::to_lowercase` is a parameter of the resolver and the classifier; JSON encoding and decoding are parameters, and a theorem that needs a codec to read back what it wrote asks that only of the values it encodes.
- Recording into the scoped ledger (`with_ledger`, `record`): the recorded URLs are a set, and the hash set's order is any enumeration of it.
- The in-place update of a JSON target through `&mut Value` and of `serde_json` fields through `iter_mut`: the merge, the redaction and `config set` return the new value, and only the statistics object is updated in place. Aliasing inside one JSON tree cannot occur in the source either.
- GetShowsWhatWasSet: set and get act on one JSON tree; the trip through the typed `Config` and its file between them is not modelled.
- OutputIsSafeIff: says nothing of texts in which URL text runs into a Markdown link, because the placeholder then becomes part of that URL and is resolved with it.
- `config set` through the typed `Config` and back, and the parsing of the new value from the command line.
- Channel merging and `merge_openclaw_defaults`, the parsing of OpenClaw's own configuration and memory files, backups and reports.
- Not-a-number and rounding of agent temperatures: they are reals compared with the same epsilon.
- SignatureMeans: asks that category names hold no NUL, the separator of the signatures, without which it is false (`NulNamesCollide`); so do the theorems on imports that rest on it (`ImportHoldsEntries`, `NewKeysHoldEntries`, `NewEntriesAreImported`, `CountersMean`) and, for keys as well, `RetainedOnce`.
- The memory store is a map from keys to contents; a backend that alters content while storing it is not modelled.
- The parsing of queue timestamps: they are numbers with a mark for a missing zone; the counters of reasons and the cancelling itself.
- The prerelease policy file is one Boolean (its required chain is fixed whatever it says); the order of the entries and the transition and history sections of the report; tags with digits outside ASCII, which the pattern also accepts.
- Image decoding, resizing and fetching: the normaliser is a partial function from references to references, so one reference cannot fail once and succeed later in the same list; all its errors are one.
- The text form of JSON numbers and the iteration order of object keys are parameters of the identity lists; the sections of the AIEOS document and its prompt text.
- `truncate_with_ellipsis`, the serial-path pattern, command-line definitions, sign-in flows, self-update, the web interface and the remaining CI guards: single branches, formatting or plumbing.
