# afriend: a verified model of its deterministic core

afriend asks several AI command-line tools ("friends") to criticise an artifact, turns what
they print into claims, merges duplicates, lets the friends judge each other's claims, and
keeps everything in an append-only ledger that a later process can resume from. This project
models the part of it that must be right whatever the friends print and whenever the process
dies, and proves it in Dafny:

* **Output recovery** — `CommaRepair`, `BraceScan`, `Extraction`, `Candidates`, `ClaimSchema`,
  `Normalize`, `Envelopes`, `TerminalWindow` (with `JsonText`, `JsonData`, `Text`): the comma
  repair, the brace scan, the ranked search and what it searches, envelopes, and the bounded look
  at the end of a stream.
* **Ledger, merging, replay** — `Ids`, `Records`, `Origins`, `Words`, `Merge`, `MergeIdentity`,
  `MergeLaws`, `ReviewState`, `ReplayLaws`, `Corroboration`, `LiveAliases`, `MergeReplay`,
  `FreshIds`, `CritiqueMerge`, `Orchestrator`, `OrchestratorLaws`, `LedgerLines`, `LedgerRecords`,
  `LedgerFile`, `LedgerReads`.
* **Bounded freezing of JSON graphs** — `JsonTrees`, `JsonCounts`, `FrozenJson`.
* **Crash and concurrency protocols** — `DispatchRound`, `DispatchLaws`, `DispatchStops`,
  `TerminalArtifacts`, `JudgeBatch`, `Failures`, `ReviewProfiles`, `SessionConfig`.
* **Printers a Markdown parser must undo** — `CodeSpan` (CommonMark 0.30, section 6.1) and
  `FencedBlock` (section 4.5), over `Backticks`.

Code that updates variables is a method with its loop, or a class with its fields, proved
against a specification function or an independent characterization; the laws are lemmas about
that specification. Python's JSON parser, case folding, SHA-256 and the like enter as parameters
(`Host`, `Codec`, `Reader`) with no more assumed of them than is written next to them.

`dafny verify dfyconfig.toml` checks the whole project.

## Where the code does less than one might think

Each of these is a lemma or a contract, with the exact condition where there is one.

* `write_terminal_artifacts` promises that a new run.json never stands beside an old report. It
  does so at every crash point and for every failing step exactly unless the second rename takes
  effect and still raises (an interruption just after it), because the rollback then restores the
  old report (`TerminalArtifacts.CrashFindsPair`, `TerminalArtifacts.InterruptedAfterRename`). The
  documentation at src/afriend/runstore.py:279-284 does not mention this case.
* The report that a rollback restores was read as text. It comes back byte for byte exactly if it
  contains no carriage return (`TerminalArtifacts.FailedSecondRename`).
* `append` checks the line bound and the node count but not the size of the file, so it accepts
  records after which nothing can be read (`LedgerFile.AppendOutgrowsReader`). The documentation at
  src/afriend/ledger.py:182-183 says that writer and reader enforce the same bounds.
* Nor are their bounds on a line the same: the writer counts the newline and the reader does not, so
  of what could be read the writer refuses exactly the lines of the greatest length
  (`LedgerReads.WriterIsStricterByOne`).
* An alias that draws a warning (an endpoint is missing, or it is not topological) still takes its
  duplicate out of the live set. It costs exactly the origins that no other live claim carries
  (`Corroboration.AliasKeepsExactly`; over whole replays `Corroboration.LiveExactly` and
  `Corroboration.ConservedThroughout`; a log that loses one: `Corroboration.WarnedReplayLosesOrigin`).
* `next_claim_number` reads claim records only. An alias may name a duplicate that was never
  recorded, which only draws a warning; the claim that is later minted under that id is on record and
  never live. New ids are new to the replayed state exactly if no alias record names them
  (`FreshIds.StrayAliasSwallowsNextClaim`, `FreshIds.FreshExactly`). The documentation at
  src/afriend/merge.py:149 calls the number certainly unused.
* An append that fails midway leaves part of a line. From then on nothing that is appended later can
  be read; what stood before it can. Only if nothing at all or everything but the newline was written
  is the loss smaller (`LedgerFile.BehindTornLine`).
* A repeat limit below two behaves as two: a first failure is never held against the limit
  (`Failures.DisabledExactly`).
* A worker that fails outside the guarded part of `_run_one`, say in progress reporting, has
  consumed its prompt and leaves no row (`DispatchLaws.ReturnedRows` says exactly who has one;
  `DispatchLaws.LostRow` is such a run).
* Profile changes are written without the 256 KiB bound that loading enforces, and no setting bounds
  the length of a lens name: one accepted profile makes the configuration unloadable
  (`SessionConfig.CreateUnloadable`).
* A claim id with superfluous leading zeros parses but is not what formatting gives back
  (`Ids.FormatInvertsParse`).

## Model

| member | source | states |
|---|---|---|
| CommaRepair.RepairedDropsExactly | src/afriend/normalize.py:69-97 | A character-by-character, quote- and escape-aware reference removes exactly the characters of comma runs that lie outside every string literal and run into a closing bracket, on any text. |
| CommaRepair.SkipLiteral | src/afriend/normalize.py:115-128 | Skipping a literal honours escapes, and nothing inside it is changed by the reference, even when the text ends inside it. |
| CommaRepair.CollectDrops | src/afriend/normalize.py:108-136 | The jumping scan collects ordered spans whose removal is the reference's result, and looks at no more than 3 n + 3 positions in all. |
| CommaRepair.WithoutCandidateUnchanged | src/afriend/normalize.py:99-107 | Without a comma that only whitespace separates from a closing bracket the reference changes nothing, so both early exits are right. |
| CommaRepair.DropTrailingCommas | src/afriend/normalize.py:99-145 | The whole function, early exits and rebuild included, equals the reference on every text. |
| CommaRepair.RepairInvertsDamage | src/afriend/normalize.py:69-145 | For every JSON tree in any layout, with any comma-and-whitespace runs put before its closing brackets, repair gives back the undamaged text. |
| CommaRepair.WellFormedUnchanged | src/afriend/normalize.py:89-97 | Well-formed JSON, string contents included, is left as it is. |
| CommaRepair.RepairIdempotent | src/afriend/normalize.py:69-145 | Repairing twice is repairing once, on all text. |
| BraceScan.IterBalancedObjects | src/afriend/normalize.py:165-203 | The single pass yields exactly the top-level balanced spans outside strings, in order and disjoint. |
| BraceScan.SpansUpToExact | src/afriend/normalize.py:168-176 | Those spans, defined by where the scan state returns to the top level, are complete up to any point of the text. |
| BraceScan.SpanYieldsItself | src/afriend/normalize.py:178-203 | A yielded span, scanned alone, yields exactly itself. |
| BraceScan.ObjectIsFirstSpan | src/afriend/normalize.py:165-203 | A printed JSON object, damaged or not, after prose without quotes or opening braces is the first span, whatever follows. |
| ClaimSchema.ValidatePayload | src/afriend/claimschema.py:75-108 | The accumulating loop computes the error list that the next row characterizes. |
| ClaimSchema.ErrorsExact | src/afriend/claimschema.py:75-108 | An error is reported if and only if the payload has that defect. |
| ClaimSchema.TierMeaning | src/afriend/claimschema.py:111-149 | Tier 0 is exactly a success with findings, tier 2 exactly a bare marker, tiers 2 and 3 exactly the payloads whose findings are null; the one success of tier 1 is a marker beside an empty list. |
| Extraction.ExtractJson | src/afriend/normalize.py:206-264 | The nested search with both early returns equals a fold over every attempt, plain and repaired, of every source and span. |
| Extraction.ExtractedWins | src/afriend/normalize.py:223-264 | Nothing is returned only if no attempt parses to an object; otherwise the winner is the first success (by order) or the first of minimum tier. |
| Extraction.FirstOfMinimumTier | src/afriend/normalize.py:256-264 | Stopping at the first tier 0 changes nothing: the winner is the first minimum-tier candidate of the whole search. |
| Candidates.AttemptsExactly | src/afriend/normalize.py:206-220 | What is offered to the parser: up to some position exactly the fenced blocks, their top-level balanced spans, and all of these repaired; from there on exactly the whole text, its spans, and these repaired. |
| Candidates.AttemptsInOrder | src/afriend/normalize.py:235-251 | Each piece is tried as it stands right before it is tried repaired; of a source the whole comes first, then its spans from left to right. |
| Candidates.ExtractedIsAttempted | src/afriend/normalize.py:223-264 | What is returned is the parse of an attempt and an object; nothing is returned exactly if no attempt parses to one. |
| Normalize.TryAnswers | src/afriend/normalize.py:361-379 | The loop over answers returns the newest success, or the best-ranked schema diagnosis, ties to the newest. |
| Normalize.NormalizeOutput | src/afriend/normalize.py:305-396 | Envelope answers first, then the raw scan, then the kept diagnosis, led by the error the CLI reported. |
| Normalize.SucceedsWhenAnyDoes | src/afriend/normalize.py:320-347 | It succeeds exactly when some envelope answer or the raw text succeeds alone. |
| Normalize.ScanNdjson | src/afriend/envelopes.py:305-350 | The scan's matches are those of each event in stream order. |
| Normalize.UnwrapNdjson | src/afriend/envelopes.py:283-302 | Answers come latest first. |
| Normalize.NewestEventWins | src/afriend/envelopes.py:293-302 | Once the newer events hold an answer that succeeds, normalizing the whole stream returns the result of the newest such answer, as normalizing the newer events alone does; no older event, successful or not, changes it. |
| Normalize.MarkerOnlyWithoutFindings | src/afriend/claimschema.py:123-147 | A payload with null findings, the bare marker included, is returned only if no candidate in the text has findings. |
| Normalize.SubstanceWins | src/afriend/normalize.py:230-233 | A successful payload with findings is returned exactly when some candidate is one. |
| Normalize.DamagedObjectIsOffered | src/afriend/normalize.py:245-251 | An object spoiled by trailing commas after prose is offered to the parser repaired. |
| Normalize.DamagedCritiqueIsRecovered | src/afriend/normalize.py:274-302 | So a substantive critique spoiled that way is recovered as one. |
| Normalize.FencedSubstanceIsFound | src/afriend/normalize.py:206-264 | Whatever surrounds a fenced block, stray braces and quotes included: if the block, one of its spans, or either repaired is a substantive critique, the text normalizes to a success with findings. |
| Normalize.FencedCritiqueIsRecovered | src/afriend/normalize.py:206-302 | So a fenced block that holds a printed critique, spoiled by trailing commas or not, is recovered. |
| Envelopes.AnswersExactly | src/afriend/envelopes.py:326-350 | A rule takes an answer from an event, and never more than one, exactly if the event is of its kind and the field is filled: text that is not blank, or a dict or list that is not empty. |
| Envelopes.AnswersInOrder | src/afriend/envelopes.py:315-350 | Answers come in the order of their events, and within an event in that of the rules; none is left out. |
| Envelopes.TextIsHandedOn | src/afriend/envelopes.py:335-338 | Text is handed on as it is. |
| Envelopes.StructuredAnswerIsFound | src/afriend/envelopes.py:338-342 | A critique that stands in the field as structured data survives being written out: the answer succeeds. |
| Envelopes.LastKeyMeaning | src/afriend/envelopes.py:342-347 | A bare list is keyed by what stands behind the last dot of the field. |
| Envelopes.BareFindingsAreFound | src/afriend/envelopes.py:342-347 | So a bare list of findings under a field that ends in `findings` is an answer that succeeds. |
| Envelopes.FailureSaysWhy | src/afriend/normalize.py:274-302 | A success carries no error; a failure is led by the error the CLI reported, if it did, and otherwise names exactly what is wrong with the payload it carries: no object, its schema errors, an empty payload, or an envelope without a container. |
| Envelopes.FailureIsBest | src/afriend/normalize.py:361-396 | Of a failure nothing ranks better: not the raw text, and no answer with a container. |
| TerminalWindow.TerminalWindowStart | src/afriend/envelopes.py:459-475 | Walking newlines back finds the start of the sixteenth line from the end, or the byte floor. |
| TerminalWindow.WindowIsLastLines | src/afriend/envelopes.py:447-475 | Whenever the last sixteen lines fit under the ceiling, the window starts exactly at the first of them. |
| TerminalWindow.WindowIsWholeText | src/afriend/envelopes.py:459-475 | A text of at most sixteen lines under the ceiling is its own window. |
| TerminalWindow.StreamFinished | src/afriend/envelopes.py:478-514 | The scan of the window answers as a scan of the whole stream's last sixteen lines does; by position, whenever those lines fit under the ceiling: it says finished exactly if some line with at most fifteen lines behind it is terminal. |
| TerminalWindow.LastByPosition | src/afriend/envelopes.py:502-513 | What the scan looks at are exactly the lines of the stream with at most fifteen lines behind them. |
| TerminalWindow.WindowHoldsLastLines | src/afriend/envelopes.py:485-502 | The lines of the window's end are the lines of the stream's end. |
| Ids.ParseInvertsFormat | src/afriend/ids.py:17-25 | Every formatted id parses to the numbers it was made from. |
| Ids.FormatInvertsParse | src/afriend/ids.py:17-25 | A parsed id is given back by formatting exactly if neither number has superfluous leading zeros. |
| Ids.BumpRaisesVersion | src/afriend/ids.py:28-30 | Bumping fails exactly on malformed ids and otherwise yields the next version of the same claim. |
| Origins.MergeOrigin | src/afriend/merge.py:39-44 | The loop computes the union the next row characterizes. |
| Origins.UnionMeaning | src/afriend/merge.py:39-44 | A join holds both sides and nothing else, keeps the left side in place, and is unchanged exactly if the right side adds nothing. |
| Merge.CollapsedIgnoresRuns | src/afriend/merge.py:35-36 | Which whitespace separates two words, and how much of it, does not change the merge key. |
| Merge.CollapsedKeepsEnds | src/afriend/merge.py:35-36 | Nor does whitespace at either end. |
| Merge.BlankLocationIsNone | src/afriend/merge.py:35-36 | No location and a blank one are the same place, and no other is. |
| Words.SplitMeaning | src/afriend/merge.py:36-36 | The words a text is split into are exactly its maximal runs without whitespace, by position and in order. |
| MergeIdentity.CollapsedIsWords | src/afriend/merge.py:35-36 | The text of the key is the words joined by single spaces. |
| MergeIdentity.KeysEqualExactly | src/afriend/merge.py:35-36 | Two keys are equal if and only if the stripped locations are equal and the case-folded texts of the words, joined by single spaces, are equal. |
| MergeIdentity.DifferentWordsDiffer | src/afriend/merge.py:35-36 | Where case folding is injective: if and only if words and stripped locations are the same, so texts with different words never share a key. |
| Merge.ExactMerge | src/afriend/merge.py:47-119 | `kept`, `aliases` and `updated_existing` are what absorbing the batch one claim at a time gives: the update list holds exactly the existing claims whose origin grew, in order of first change. |
| MergeIdentity.AliasedExactly | src/afriend/merge.py:47-119 | An incoming claim is merged away if and only if an existing claim, or an incoming one before it, says the same words about the same place. |
| MergeIdentity.KeptSayDifferentThings | src/afriend/merge.py:54-59 | No claim that is kept repeats an existing or kept one. |
| MergeIdentity.ChangedInOrder | src/afriend/merge.py:68-75 | `updated_existing` is in the order in which each origin was first seen to grow. |
| MergeLaws.MergeComposes | src/afriend/merge.py:77-119 | Merging a + b is merging a, then b against the result, claims and aliases alike. |
| MergeLaws.KeptAndAliasedCount | src/afriend/merge.py:85-111 | Every incoming claim is kept or aliased, never both or neither. |
| MergeLaws.BehindAbsorbed | src/afriend/merge.py:61-75 | Who stands behind a key afterwards are those who did before and those who raised it now. |
| MergeLaws.OrderDoesNotMatter | src/afriend/merge.py:54-59 | Under any permutation of the batch the kept keys and the origins behind every key are the same. |
| MergeLaws.NextClaimNumber | src/afriend/merge.py:148-170 | The highest number any claim record ever spent, merged away or superseded ones included; a malformed id is refused. |
| MergeLaws.MintedAboveIsFresh | src/afriend/merge.py:149-164 | An id minted above it is the id of no claim record; what alias records may do to it is the next row. |
| FreshIds.FreshExactly | src/afriend/merge.py:148-170 | Claims minted above the highest number on record are new to the replayed state, warnings or not, if and only if no alias record names one of their ids as its duplicate. |
| FreshIds.FreshWithoutWarnings | src/afriend/merge.py:148-170 | A log that replays without a warning names none of them. |
| FreshIds.StrayAliasSwallowsNextClaim | src/afriend/reviewstate.py:73-80 | A concrete log that replays, and after which the next claim minted is recorded and never live. |
| MergeReplay.BatchAgrees | src/afriend/merge.py:122-145 | From any replayed state, replaying a batch's log gives exactly the claims, order and origins of merging it in memory, without a warning. |
| MergeReplay.RunAgrees | src/afriend/merge.py:122-145 | The same over any run of batches with distinct ids, from the empty ledger. |
| FreshIds.MintingRunAgrees | src/afriend/merge.py:148-170 | Minting every batch above the numbers on record is enough for that: no other freshness is assumed. |
| CritiqueMerge.FoldBack | src/afriend/merge.py:68-75 | Replacing existing claims by `updated_existing` and appending `kept` gives the claims that absorbing the batch gives. |
| CritiqueMerge.MergeRound | src/afriend/commands/critique.py:335-354 | Recording and applying every claim raised, then every alias, leaves the reducer's claims equal to the merged ones and its state equal to what the log replays to, without a new warning. |
| ReviewState.Review.ApplyRecord | src/afriend/reviewstate.py:37-50 | The class's state after a record is the specification's; a refused record changes nothing. |
| ReviewState.Review.Claims | src/afriend/reviewstate.py:92-98 | The live claims, in recorded order, with their accumulated origins. |
| ReviewState.ReplayRecords | src/afriend/reviewstate.py:30-35 | Replaying step by step reaches the specification's state or its first error. |
| ReviewState.NoCycleBranch | src/afriend/reviewstate.py:62-69 | From any state with a well-founded supersession relation the cycle error is unreachable. |
| ReviewState.ReplayTopological | src/afriend/reviewstate.py:52-71 | Every reachable state has one: each claim supersedes only an earlier one. |
| ReplayLaws.ReplaysExactly | src/afriend/reviewstate.py:37-71 | A ledger replays if and only if every claim agrees with what its id said before and supersedes only a claim recorded before it, and every verdict and resolution names one. |
| ReplayLaws.RefusedAtFirstMisfit | src/afriend/reviewstate.py:37-71 | Otherwise it is refused at the first record that does not fit, and the error says why that one does not. |
| ReplayLaws.ReplayKeeps | src/afriend/reviewstate.py:37-50 | After a replay the verdicts, resolutions and aliases are exactly those on record, in order. |
| ReplayLaws.WarnsExactly | src/afriend/reviewstate.py:73-88 | Its warnings are one for each alias with an end that is not on record before it, or whose canonical claim is merged away by then, in order, and no others. |
| Corroboration.ReplayHolds | src/afriend/reviewstate.py:52-71 | A replay holds exactly the claims on record, as recorded. |
| Corroboration.AliasKeepsExactly | src/afriend/reviewstate.py:73-98 | An alias keeps an origin live if and only if it draws no warning or another live claim than its duplicate carries the origin. |
| Corroboration.LiveExactly | src/afriend/reviewstate.py:52-98 | After any replay, warned or not, an origin is an origin of a live claim if and only if some record put it there and no later warned alias took away its last carrier. |
| Corroboration.ConservedThroughout | src/afriend/reviewstate.py:52-98 | At every point of a replay every origin on record is live, if and only if every warned alias finds another live carrier for what its duplicate carries, and no claim under an id merged away before brings a new origin. |
| Corroboration.CorroborationConserved | src/afriend/reviewstate.py:73-98 | So after a replay without warnings the origins over the live claims are exactly the origins over all claim records. |
| Corroboration.WarnedReplayLosesOrigin | src/afriend/reviewstate.py:73-80 | With a warning that fails: a concrete log whose only origin is gone. |
| Orchestrator.ValidateMergeResponse | src/afriend/orchestrator.py:157-227 | Accepts exactly the well-shaped responses whose entries, by their own keys, name known claims, no duplicate twice, and no duplicate as canonical; decision i then keeps what entry i names under `canonical`, drops what it names under `duplicate`, and has its rationale unless that is blank or no text. |
| Orchestrator.ChainedOrForest | src/afriend/orchestrator.py:220-226 | Comparing the two id sets at the end is the same as asking for no chain. |
| Orchestrator.ApplyMerges | src/afriend/orchestrator.py:230-268 | Total on decisions over the claims; the loops compute the kept list and the aliases that the next rows characterize. |
| Orchestrator.AliasesInOrder | src/afriend/orchestrator.py:253-261 | One alias per decision, in order, from the claim that goes to the one that stays, with a rationale that is never empty. |
| OrchestratorLaws.GatheredMeaning | src/afriend/orchestrator.py:247-251 | A claim's gathered origins are its own and those of the claims merged into it. |
| OrchestratorLaws.KeptMeaning | src/afriend/orchestrator.py:263-267 | Exactly the duplicates are removed. |
| OrchestratorLaws.NoOriginLost | src/afriend/orchestrator.py:235-241 | Every origin of every claim is an origin of a kept claim. |
| OrchestratorLaws.DecisionOrderDoesNotMatter | src/afriend/orchestrator.py:247-268 | Any order of the decisions keeps the same claims in the same order, with the same origins up to their order. |
| OrchestratorLaws.MergesReplay | src/afriend/orchestrator.py:253-268 | Replaying the emitted aliases gives what was kept, without a warning. |
| LedgerLines.SegmentsMeaning | src/afriend/ledger.py:288-313 | The newline split the reader is held to cuts at every newline and nowhere else. |
| LedgerLines.ReadChunk | src/afriend/ledger.py:297-311 | One chunk extends the lines and the pending segment to the split of all bytes read so far, or stops at the first line over its bound. |
| LedgerLines.BoundedLines | src/afriend/ledger.py:288-313 | For every way of cutting the file into chunks the lines are its newline split without an empty last segment; it refuses exactly when the total or a line exceeds its bound; it never buffers more than one line bound. |
| LedgerRecords.ReadsWhatWasWritten | src/afriend/ledger.py:126-165 | Every record survives being written as a dict and read back. |
| LedgerRecords.AcceptedIsWritten | src/afriend/ledger.py:132-165 | An accepted dict is the one its record is written as: no key or value to spare. |
| LedgerRecords.AliasByName | src/afriend/ledger.py:126-165 | The two ends of an alias are read from under their own names, whatever wrote the line. |
| LedgerRecords.VerdictByName | src/afriend/ledger.py:126-165 | So are claim, judge and vote of a verdict. |
| LedgerFile.Ledger.Append | src/afriend/ledger.py:216-236 | A rejected record leaves the file alone; an accepted one adds exactly its line, however few bytes each write takes; a write without progress leaves a torn line and says so. |
| LedgerFile.Ledger.Records | src/afriend/ledger.py:238-274 | For any file and any chunking: the records up to the first bad line, and which line and why. |
| LedgerReads.ReadLineExactly | src/afriend/ledger.py:252-270 | A line is read as a record exactly if it decodes, within the node bounds, to that record as it is written; else the error says which of the three is missing. |
| LedgerReads.LinesReadExactly | src/afriend/ledger.py:250-270 | A pass ends without an error exactly if every line that is not blank is a record, and has yielded one for each, in order; else it ends at the first that is none, with that line's number and what is wrong with it. |
| LedgerReads.FileReadExactly | src/afriend/ledger.py:238-313 | The same for a whole file: beyond its bound nothing is yielded, and a line that is too long ends the pass with its number after one record for each line before it that is not blank. |
| LedgerReads.WriterIsStricterByOne | src/afriend/ledger.py:180-214 | The writer accepts nothing the reader would not take, and refuses of what it would take exactly the lines of the greatest length. |
| LedgerFile.LedgerRoundTrip | src/afriend/ledger.py:180-274 | Any sequence of accepted records reads back as exactly itself, if and only if the file stays within its bound. |
| LedgerFile.Ledger.AppendEach | src/afriend/commands/crossexam.py:596-598 | Records appended one after the other: the file is the log of the accepted ones behind what it held, up to the first refusal or torn line. |
| LedgerFile.WrittenIsRead | src/afriend/ledger.py:216-274 | A pass over such a file, however it was cut, yields exactly those records, if it is within its bound, and otherwise nothing. |
| LedgerFile.AppendThenRead | src/afriend/ledger.py:216-274 | The two together on the class: what a call appends is what a later pass reads, behind what was there. |
| LedgerFile.BehindTornLine | src/afriend/ledger.py:226-236 | After a torn append, whatever is appended later: exactly the records before it are read and then an error, unless no byte of it was written, or all but its newline and nothing follows. |
| LedgerFile.AppendOutgrowsReader | src/afriend/ledger.py:246-250 | Repeating any accepted record often enough makes the file unreadable though every append was accepted. |
| JsonTrees.UnfoldsOnce | src/afriend/outcomes.py:68-68 | A graph value has at most one by-value unfolding. |
| JsonTrees.WalksDescend | src/afriend/outcomes.py:96-101 | Along any walk through containers the unfoldings get strictly lower. |
| JsonCounts.WritesAlike | src/afriend/ledger.py:182-187 | Nodes, bytes, depth and scalar bounds of a value are the same in any order of its keys, so what the writer counts before sorting the keys the reader counts again. |
| JsonCounts.CountIsOfTheValue | src/afriend/outcomes.py:41-45 | Whether a graph passes the count depends only on the JSON value it stands for. |
| FrozenJson.Freezer.Freeze | src/afriend/outcomes.py:60-120 | On any graph, shared or cyclic: it stops within the node bound plus one call, restores the set of open containers even when it fails, returns the by-value unfolding with its node and byte counts when that fits the limits, and fails only if no unfolding fits. |
| FrozenJson.Freezer.FreezeEntries | src/afriend/outcomes.py:104-113 | The same for the loop over a dict: keys are counted before values, and a non-string key refuses it. |
| FrozenJson.JsonNodeCount | src/afriend/outcomes.py:41-45 | Accepts exactly the graphs whose unfolding fits depth, node and scalar limits, counts its nodes, and never makes more than 8193 calls. |
| FrozenJson.AcceptedHasNoCycle | src/afriend/outcomes.py:99-101 | No walk from an accepted value meets a container twice. |
| FrozenJson.Thawer.Thaw | src/afriend/outcomes.py:147-198 | Thawing gives the value back exactly if its own limits hold; its cycle branch is unreachable, since inner containers are made later than outer ones. |
| FrozenJson.FreezeThenThaw | src/afriend/outcomes.py:60-198 | What was frozen always thaws, and to the unfolding of the original. |
| DispatchRound.RecoverKeeps | src/afriend/rounds.py:447-461 | Recovery adds each missing row once and keeps roster order. |
| DispatchRound.StepKeeps | src/afriend/rounds.py:422-481 | Every step of every schedule keeps the protocol's invariant. |
| DispatchLaws.ReturnedRows | src/afriend/rounds.py:286-461 | For every interleaving of starts, finishes, aborts and an interruption: a friend has a row at the end exactly if its worker passed the start check and did not fail outside the guarded part, and the row is its worker's. |
| DispatchStops.AbortExactly | src/afriend/rounds.py:298-445 | After any run the stop is set if and only if the round began with it, someone aborted, the main thread was interrupted, or a worker ended with an error meant to stop the round. |
| DispatchStops.StopIsFinal | src/afriend/rounds.py:298-299 | Behind such a step no worker passes its start check and no friend is set up; and a worker leaves at that check only behind one. |
| DispatchStops.NoRowBehindStop | src/afriend/rounds.py:294-299 | So whoever had not passed the check by then has no row. |
| DispatchStops.BusyBound | src/afriend/rounds.py:413-422 | Never more friends at work than there are workers. |
| DispatchStops.FirstErrorStays | src/afriend/rounds.py:436-446 | The first error that is noted is the one the round reports, whatever happens after it. |
| DispatchStops.InterruptIsReported | src/afriend/rounds.py:440-446 | An interruption is what a round reports unless an error was noted before it. |
| DispatchStops.ReportedError | src/afriend/rounds.py:431-439 | Without an interruption it is the error of the first friend, in roster order, that has one. |
| DispatchLaws.LostRow | src/afriend/rounds.py:286-461 | A concrete run that returns without a row for a worker that passed the start check. |
| DispatchLaws.ReturnedOrder | src/afriend/rounds.py:413-414 | Rows come in roster order, one per friend. |
| DispatchLaws.CleanReturn | src/afriend/rounds.py:425-439 | A round without an error collected every friend that was set up, and no worker asked for a stop. |
| DispatchLaws.RunsEnd | src/afriend/rounds.py:422-481 | No schedule of n friends takes more than 8 n + 7 steps. |
| DispatchLaws.GoesOn | src/afriend/rounds.py:422-481 | No deadlock: until it returned, a round can take a step without being aborted or interrupted. |
| DispatchLaws.PruneUndispatchedPrompts | src/afriend/rounds.py:125-135 | A prompt file stays exactly if every friend it was written for has a row. |
| Failures.SignatureIsInjective | src/afriend/failures.py:120-129 | Two failures look alike exactly if exit code and reason are the same. |
| Failures.RepeatTracker.Record | src/afriend/failures.py:182-192 | The three dicts after an outcome are the specification's. |
| Failures.StreakMeaning | src/afriend/failures.py:182-192 | The counter is the length of the longest run of equal failures at the end. |
| Failures.DisabledExactly | src/afriend/failures.py:132-192 | A friend is disabled if and only if, since its last success, max(limit, 2) consecutive failures had equal signatures. |
| Failures.DisabledReason | src/afriend/failures.py:182-192 | It is listed with the reason of its last failure that completed such a run. |
| Failures.MissingPartsAreEmpty | src/afriend/failures.py:165-180 | A snapshot without one of the three dicts restores that one as empty. |
| Failures.RestoreIsInvisible | src/afriend/failures.py:147-180 | Saving and restoring at any point changes no later history. |
| Failures.TrackedAppends | src/afriend/failures.py:147-163 | A history before a snapshot and one after it are one history. |
| Failures.PartitionDispatchable | src/afriend/rounds.py:78-91 | Splits the roster, in order, into those that may run and the disabled. |
| Failures.DisabledForGood | src/afriend/rounds.py:78-91 | With that filter before every round, a disabled friend stays disabled, with the same reason, to the end of the run. |
| TerminalArtifacts.RunDirectory.WriteTerminalArtifacts | src/afriend/runstore.py:276-319 | Stage, replace, roll back and clean up, for every choice of failing steps, pass through exactly the specification's states. |
| TerminalArtifacts.CrashFindsWholeFiles | src/afriend/runstore.py:276-319 | In every state a crash may leave, each public file is wholly the old or wholly the new one; after a rollback, old means what reading the old report gave. |
| TerminalArtifacts.CrashFindsPair | src/afriend/runstore.py:279-284 | A new run.json implies the new report in all those states if and only if the second rename did not both land and raise with its rollback taking effect. |
| TerminalArtifacts.InterruptedAfterRename | src/afriend/runstore.py:303-314 | A concrete run that ends with the new run.json beside the old report. |
| TerminalArtifacts.NormalReturn | src/afriend/runstore.py:297-319 | A normal return means both files are new and no new file is left staged. |
| TerminalArtifacts.FailedSecondRename | src/afriend/runstore.py:303-314 | A refused second rename with a successful rollback restores both, an absent report included; the report is byte for byte the old one exactly if that has no carriage return. |
| TerminalArtifacts.FailedStaging | src/afriend/runstore.py:285-301 | A failure before the first rename changes nothing public at any point. |
| JudgeBatch.FriendStore.PersistJudgingBatch | src/afriend/judgebatch.py:24-57 | Refuses anything but this friend's version-1 audit, and otherwise passes through the parsed file and the version-2 audit in that order. |
| JudgeBatch.CollectVerdicts | src/afriend/judgebatch.py:185-192 | The loop reads the verdicts of this judge and round, or refuses at the first that is none. |
| JudgeBatch.BatchPartitionsSlice | src/afriend/judgebatch.py:169-215 | Whatever the files hold, a batch that recovery returns splits the shown slice into votes of this judge and round and omissions, without overlap or remainder. |
| JudgeBatch.NoBatchBefore | src/afriend/judgebatch.py:152-164 | Until both writes are done no batch is returned and no claim counts as corroborated. The answer is nothing without an audit, and a refusal for one that cannot be read; for one that can it is nothing if every verdict is already durable, else a refusal. |
| JudgeBatch.WholeBatchOrRefused | src/afriend/judgebatch.py:134-215 | A complete audit gives back exactly the whole batch if and only if slice and prompt are the same, no bound file was modified, and audit, parsed batch and captured files are within 32 MiB and decode; else recovery refuses. |
| JudgeBatch.CrashPoints | src/afriend/judgebatch.py:24-57 | What recovery answers at every crash point: until the second write is done what it answered before the first, case by case as above, and from then on the whole batch or, exactly where that cannot be recovered, a refusal. |
| JudgeBatch.UpgradesExactly | src/afriend/judgebatch.py:30-50 | The audit of a friend's result is upgraded if and only if it can be read and round, friend and row are its own. |
| JudgeBatch.BatchIsVouchedFor | src/afriend/judgebatch.py:165-215 | Whatever the files hold, a returned batch is vouched for: by a complete audit of this round, friend and slice, whose prompt is the reconstructed one, and a parsed file that repeats row and judging word for word. |
| JudgeBatch.OtherVersions | src/afriend/judgebatch.py:163-164 | An audit of any other version holds no batch and vouches for nothing. |
| JudgeBatch.CorroboratedExactly | src/afriend/judgebatch.py:60-131 | A ledger verdict is corroborated if and only if the judge's own complete audit records a vote on that claim, whether or not a batch is returned. |
| JudgeBatch.CapturesMeaning | src/afriend/rounds.py:716-740 | With an injective hash the captures hold exactly as long as no bound file changed and each is within the 32 MiB its reader allows. |
| JudgeBatch.CorroboratedIsInBatch | src/afriend/judgebatch.py:60-131 | The corroboration check accepts exactly the durable ids that are votes of the returned batch. |
| ReviewProfiles.Resolve | src/afriend/reviewprofiles.py:69-103 | The walk terminates on any profile map, cycles included, and gives the specification's profile or error. |
| ReviewProfiles.ResolvesExactly | src/afriend/reviewprofiles.py:77-91 | A known name resolves if and only if its chain of bases ends in a built-in. |
| ReviewProfiles.NoRepeats | src/afriend/reviewprofiles.py:78-83 | A chain meets no profile twice. |
| ReviewProfiles.NearestWins | src/afriend/reviewprofiles.py:92-103 | Each setting and the mode come from the nearest profile on the chain that defines it, else from the built-in; nothing else is set. |
| SessionConfig.ValidIsGood | src/afriend/sessionconfig.py:144-183 | Validation accepts exactly the maps with valid entries whose chains all end in a built-in, with an existing default. |
| SessionConfig.LoadedIsGood | src/afriend/sessionconfig.py:186-218 | Whatever file there is, what loads from it keeps that promise; so it holds after any sequence of operations. |
| SessionConfig.PutExactly | src/afriend/sessionconfig.py:378-401 | Creating or replacing a definition keeps that exactly if name and definition are valid, its base is known and does not lead back to the name. |
| SessionConfig.DeleteExactly | src/afriend/sessionconfig.py:440-453 | Deleting keeps it exactly if the profile is neither the default nor a base. |
| SessionConfig.SessionStore.CreateProfile | src/afriend/sessionconfig.py:404-418 | Accepted exactly for a new valid name, safe settings and a known base; the stored configuration then keeps the promise, and loads again exactly if it is within the loader's bounds. |
| SessionConfig.SessionStore.UpdateProfile | src/afriend/sessionconfig.py:421-437 | Accepted exactly for an existing profile, safe settings and a known base that does not lead back. Each field then has the new setting, else the new base if it is `base` and one is given, else what it had. |
| SessionConfig.SessionStore.DeleteProfile | src/afriend/sessionconfig.py:440-453 | Accepted exactly for a profile that is neither the default nor a base; else nothing changes. |
| SessionConfig.SessionStore.SetDefault | src/afriend/sessionconfig.py:316-334 | Accepted exactly for a known profile. |
| SessionConfig.CreateUnloadable | src/afriend/sessionconfig.py:194-199 | For every valid name there is an accepted change after which nothing loads: a profile with one lens name longer than the loader's 256 KiB. |
| CodeSpan.LongestRun | src/afriend/reportescape.py:108-115 | The loop finds the longest run of backticks: it occurs, and none longer does. |
| CodeSpan.EndingBecomesSpace | src/afriend/reportescape.py:44-50 | Each line ending, a carriage return before a newline counted with it, becomes one space; everything else stays. |
| CodeSpan.CodeSpan | src/afriend/reportescape.py:86-122 | Parsed by section 6.1 of CommonMark 0.30, the span gives back exactly the text, edge spaces included, whatever follows that is no backtick; for empty text the result is no span. |
| CodeSpan.RoundTrip | src/afriend/reportescape.py:92-104 | One fence longer than the longest run, padded where needed, is closed by nothing inside. |
| FencedBlock.SameLine | src/afriend/reviewcontext.py:557-560 | A line in CommonMark's sense without Python's other separators is one of Python's lines, so the printer sees every line that could close the fence. |
| FencedBlock.NoLineCloses | src/afriend/reviewcontext.py:557-561 | No line of the payload can close the chosen fence. |
| FencedBlock.FenceRoundTrip | src/afriend/reviewcontext.py:552-562 | Parsed by section 4.5 of CommonMark 0.30, the block gives back the payload, up to one final newline, and the label, whatever follows. |

## Left out

* Claim settlement, gate states and loop convergence, spawning processes, transports, sandboxing, git, adapter loading, argument parsing, report layout and prompts: what they decide enters as parameters or not at all.
* The regular expressions of the report escapes, link defanging, ANSI stripping and display sanitizing: text is modelled after them.
* Python's JSON parser and encoder are parameters; only the repair and the brace scan use a concrete JSON printer.
* Python's other line separators in the event-stream scan: streams are modelled as separated by newlines. `FencedBlock` does model them.
* Lone surrogates, and the limit on digits in integer conversion: strings are sequences of Unicode scalar values and integers unbounded.
* Python's equality of `1`, `1.0` and `true` in comparisons of decoded JSON: JSON values are compared as written.
* File locks, symbolic-link and permission checks, fsync and power loss: a rename is atomic, and a write completes or leaves part of its text in a file nobody else reads.
* `_write_atomic` on its own: it is one staged rename, as in `TerminalArtifacts`.
* The branch table of `terminal_outcome`, budgets, qualification counts and snapshot checks: each decides one case from its arguments and keeps nothing between calls.
* A second interruption during the recovery of a round, and one between submitting a job and remembering its future.
* The classification of authentication and quota failures after a round, and the messages of all errors: errors are kinds, not texts.
* The check of saved friend rows is a parameter of `JudgeBatch`.
* Character classes of profile names are a parameter of `SessionConfig`; so are the review-context settings, which the operations carry along.
* A dict's keys are distinct, so the freezer's assignments into the new dict are modelled as additions at its end.
* DispatchRound.Interruptible: does not model an interruption between submission and append, because the source itself loses track of that future.
