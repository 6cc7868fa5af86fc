# Verified models of ghostwriter's engine and screening core

Dafny models of the parts of ghostwriter whose guarantees span several functions, and proofs of
those guarantees. `dafny verify dfyconfig.toml` checks the whole project.

## What is modelled

**The crash-resumable best-of-k engine** (`Lifecycle`, `BestOfK`, `History`, `Executor`). A seed item
is a map from record keys (a sibling, or the retry of one) to graded records. `BestOfK` says which
single store transactions may change it. A crash or a cancellation between two transactions leaves
the durable item as it was, so any number of launches is one sequence of such steps, and a property of
all runs is a property of all crashes. `History` adds the shard: all its items and its cursor.
`Executor` follows the engine's own methods: the guarded store write that may fail with or without
having committed and recognizes a command it has committed before, reads that may fail, the
cancellation token that anyone may set between two polls, the concurrent siblings and the concurrent
shards whose turns interleave in any order, election, retention, parking, the bounded revise, the shard
loop, the launch and the run's own row. Each method is proved to make only steps that `BestOfK` allows
and that a fixed oracle foretells; the oracle gives, per record id, what generation, verification and
judging yield. A store counts its faults, and a method stops early only if the count grew during the
call. So a launch completes exactly when no fault strikes it and nobody cancels it, the run's row never
says completed while an item is pending, and a shard is done once it had more launches than faults and
cancelled launches.

**The lexical screening engine** (`Shingles`, `Lexical`, `Components`, `Lineage`, `Intake`, `Grouping`,
`Screening`, `Renaming`, `Extension`). String interning, shingle indexes of start positions, the
two-pointer merge, union-find with path halving, the topological reduction of the parent lineage, star
and chain edges, group identities across plan extensions, and the scans that join them. Each algorithm
is tied to a mathematical reference: sets of token windows, paths of edges, directed cycles.
`Screening.Screen` composes them: who shares a group, from the records to the plan, and what the scan
costs, to the comparison. `Renaming` shows that matches depend on the texts only, not on the numbers
that interning gives to their words, and `Extension.Extend` uses it: which plans keep the groups of the
plan they extend. A content hash is modelled by the value that is hashed, so equal hashes mean equal
values.

**Coordination and cached state** (`Admission`, `Priors`). The admission gate as a state machine over
the steps of any number of callers, any of which may be dropped at any point, with other processes
beside it that admit attempts and change the policy. The coordinator's methods are proved to take only
steps of that machine, and its operations are composed of them with other callers' steps in between.
The prior corpus, whose exclusion cache refines a plain filter.

**Parsers, assemblers and re-derivation** (`ToolCalls`, `Text`, `Identity`, `Channels`, `Promote`).
Round trips over unbounded inputs, and a report that decides as a rerun would.

## What the models show beyond the code's own comments

- An extension is accepted if its policy is the previous one and no member is missing
  (`crates/gw-eval/src/screening.rs:52-72`). That does not keep its groups: a group can be split while
  both halves inherit its identity. Two groups share an identity exactly when they meet the same previous
  groups (`Extension.IdsCollide`). A group stays whole exactly if the edges found still connect it. If the
  limits leave room for the shingles and for all comparisons between records, that is exactly if its
  members still reach each other through declared relations and matching units of the new corpus
  (`Extension.Extend`); with no room for the shingles only declared edges are left. So under an equal
  policy every group is kept if no declared sibling set is withdrawn, no resolved parent becomes
  ambiguous and the limits leave that room. There is an input for each of these three. A sibling set that
  the new declaration drops takes its edges along (`Extension.WithdrawnSetCollides`). A parent edge is
  lost when a later record of another run carries the parent's record id (`Intake.ParentSurvives` gives
  the exact condition, `Extension.AmbiguousParentCollides` the input). And a scan that reaches a resource
  limit still groups with the lexical edges found so far, so old edges are lost
  (`Extension.RefusedScanCollides`).
- `crates/gw-format/src/lib.rs:19` calls rendering and ingest inverses. A Harmony turn without
  reasoning is an exception (`Channels.FinalAloneIsKept`); with reasoning, `Channels.HarmonyInverts`
  gives the exact condition.
- The pending-revise outcome of an item and the record-level error arm of the shard loop are never
  reached (`Executor.Launch.ProcessItem`), as long as a persisted grade can be derived again: formatting
  repeats the pure render that judging already did, and a retry's fault is parked as the retry's own.

## Model

| member | source | states |
|---|---|---|
| `BestOfK.WriteKeepsInv` | crates/gw-engine/src/sibling.rs:543-634 | every durable write of the protocol keeps the item invariant: record shapes, at most one established winner, a winner only in a fully graded group, a retry only of a revising winner |
| `BestOfK.RunKeepsInv` | crates/gw-engine/src/sibling.rs:206-257 | the invariant holds in every state of every run, over any number of crashes and relaunches |
| `BestOfK.OneWinner` | crates/gw-engine/src/sibling.rs:513-591 | in every reachable durable state at most one sibling is admitted, formatted, exported or revising, and at most one record of the item, retry included, is admitted, formatted or exported |
| `BestOfK.Absorption` | crates/gw-engine/src/executor.rs:755-786 | over a whole run a stored record is never dropped, a decided one never becomes Error and only gains publication progress, an errored one stays as it is, and a persisted grade is never replaced |
| `BestOfK.OneRevision` | crates/gw-engine/src/step.rs:355-380 | a whole run contains at most one transition to Revising per item, and never one of a retry |
| `BestOfK.ChampionExists` | crates/gw-engine/src/sibling.rs:565-580 | if the oracle gives any sibling an admissible decision with an aggregate, the lowest-index maximum exists |
| `BestOfK.KeepsChampion` | crates/gw-engine/src/sibling.rs:549-591 | in a fully graded group of any reachable state, a sibling is the one the group keeps, as its established winner or by a fresh election, if and only if it is the oracle's champion |
| `BestOfK.WriteKeepsTrack` | crates/gw-engine/src/sibling.rs:597-634 | every oracle-conforming write keeps every stored record on the way to its final state |
| `BestOfK.CrashConfluence` | crates/gw-engine/src/sibling.rs:543-634 | once an item is settled, its records and their states are those of the uninterrupted run, wherever crashes and cancellations fell: champion by its own decision, other admissible siblings Rejected, the rest their natural outcome |
| `BestOfK.SettledRunsAgree` | crates/gw-engine/src/sibling.rs:206-257 | two settled runs under one oracle hold the same records in the same states, up to publication progress |
| `BestOfK.CanSettle` | crates/gw-engine/src/sibling.rs:206-257 | wherever a run was interrupted, further writes that the oracle foretells settle its item, so the outcome of a settled item is always reached by relaunching |
| `BestOfK.NextWrite` | crates/gw-engine/src/step.rs:71-92 | an unsettled item always has a record, a sibling's or a due retry's, with a conforming write that takes it further |
| `BestOfK.KeepStays` | crates/gw-engine/src/sibling.rs:597-634 | finishing one sibling does not change whom the group keeps |
| `History.CursorSound` | crates/gw-engine/src/checkpoint.rs:57-80 | over every history of a shard the cursor never moves back, and every item below it has all siblings stored and terminal, with a terminal retry for a revising winner |
| `History.CommittedIsFinal` | crates/gw-engine/src/executor.rs:505-520 | every item below the cursor holds exactly what its oracle's uninterrupted run makes of it |
| `Executor.Store.Put` | crates/gw-storage/src/record_mutations.rs:205-268 | one guarded record transaction: a new command is applied only to the snapshot it expects, one committed before is acknowledged again without effect, a stale one conflicts; any failure may hide a commit, and no other row changes |
| `Executor.Store.Resend` | crates/gw-storage/src/record_mutations.rs:177-234 | a command that is repeated until it is acknowledged is applied at most once, and exactly once if it was, wherever the failures fall |
| `Executor.Store.Commit` | crates/gw-engine/src/checkpoint.rs:67-80 | the cursor moves from the settled offset to the next one, or the call fails, counted as a fault, with or without having moved it |
| `Executor.Store.ItemInv` | crates/gw-engine/src/sibling.rs:513-526 | every item of a store with a valid history satisfies the invariant |
| `Executor.Token.Poll` | crates/gw-engine/src/control.rs:32-41 | the cancellation flag is monotone; anyone may have set it since the last poll |
| `Executor.Launch.Get` | crates/gw-engine/src/sibling.rs:215-240 | a read gives the stored row or its absence, or fails, counted as a fault |
| `Executor.Launch.Advance` | crates/gw-engine/src/step.rs:71-92 | one transition: verify, judge, reconcile or format, persisted before it returns; it stops exactly if a fault struck; a record-level error means the oracle faults this record there, and the record is unchanged |
| `Executor.Launch.Persist` | crates/gw-engine/src/step.rs:397-432 | commits the transition against the snapshot; a failed prior append after admission leaves the admission committed |
| `Executor.Launch.Drive` | crates/gw-engine/src/step.rs:119-148 | it stops exactly if a fault struck during the call; otherwise, unless cancelled, it ends in a terminal state, so the cap of 16 transitions is never met; only a retry's own content can raise a record-level error |
| `Executor.Launch.Park` | crates/gw-engine/src/executor.rs:547-592 | unless the read or the write fails, the faulting record ends at Error, as a stub if it was never stored; a record that has its decision is returned as it is, and nothing is written |
| `Executor.Launch.Generate` | crates/gw-engine/src/sibling.rs:347-441 | generates only an id that is not stored (precondition of the teacher call) and stores it once; cancelled before dispatch it leaves the records unchanged |
| `Executor.Launch.PollTask` | crates/gw-engine/src/sibling.rs:206-257 | one scheduled turn of a sibling's future: at most one transaction on that sibling's row, the task comes nearer to its end, and it fails exactly if a fault struck in this turn |
| `Executor.Launch.FanOut` | crates/gw-engine/src/sibling.rs:93-133 | under every interleaving of the siblings' turns all tasks finish, a fault cancels the run, and without interruption every sibling is driven |
| `Executor.Launch.Join` | crates/gw-engine/src/sibling.rs:108-133 | a run-level fault cancels the token; anything but a driven sibling marks the group interrupted or failed |
| `Executor.Launch.ReadGroup` | crates/gw-engine/src/sibling.rs:69-80 | the stored siblings are read before any dispatch; it fails exactly if a read failed, and a cancellation ends it early |
| `Executor.Launch.RunGroup` | crates/gw-engine/src/sibling.rs:57-155 | it stops only after a fault of this call; no record-level error escapes the group; an uninterrupted group mirrors the store, is terminal throughout, and names the sibling that the durable group keeps |
| `Executor.FirstEstablished` | crates/gw-engine/src/sibling.rs:551-553 | the first admitted, formatted, exported or revising sibling, or none |
| `Executor.Elect` | crates/gw-engine/src/sibling.rs:565-580 | the lowest-index maximum of the aggregates over still-judged admissible siblings, or none |
| `Executor.ChoiceIsKeep` | crates/gw-engine/src/sibling.rs:549-591 | established-else-elected over the in-memory siblings is what the durable protocol says the group keeps |
| `Executor.Launch.SelectAndFinalize` | crates/gw-engine/src/sibling.rs:543-591 | the returned winner is the group's keep: the established winner if there is one, else the elected sibling, else none; it is finished before the others, and no record-level error can surface |
| `Executor.Launch.RetainRemaining` | crates/gw-engine/src/sibling.rs:597-634 | unless cancelled every other sibling reaches a terminal state, and the group still keeps the same sibling |
| `Executor.Launch.Retain` | crates/gw-engine/src/sibling.rs:604-632 | an admissible sibling that is not kept becomes Rejected, one its own decision refuses reconciles naturally, any other is left alone |
| `Executor.Launch.StartRetry` | crates/gw-engine/src/revise.rs:77-108 | the retry is stored afterwards, read or generated, unless a fault struck, its generation faults or the run was cancelled first |
| `Executor.Launch.ReviseOnce` | crates/gw-engine/src/revise.rs:49-127 | writes only the retry's row, returns Revising only when cancelled, and attributes a record-level fault to the retry |
| `Executor.Launch.ReviseMember` | crates/gw-engine/src/executor.rs:628-672 | a settled member has a terminal retry; a pending outcome implies the token is set |
| `Executor.Launch.ProcessItem` | crates/gw-engine/src/executor.rs:614-674 | settled means every sibling is terminal and a revising winner's retry too, with all-errored health exactly if no sibling has its decision; any other outcome implies the token is set, so the pending-revise outcome never occurs |
| `Executor.Launch.RunShard` | crates/gw-engine/src/executor.rs:420-528 | commits only settled items in order; it fails only after a fault of this very call, and every fault shows as a failure or a cancellation; otherwise it leaves the cursor at the shard's end or the token set; the record-level arm of the loop is unreachable |
| `Executor.Launch.CommitItem` | crates/gw-engine/src/executor.rs:464-519 | going on means that the cursor moved past exactly this item, and leaving the loop early means that the token is set and the cursor stands |
| `Executor.Launch.ShardTurn` | crates/gw-engine/src/executor.rs:429-521 | one turn of a shard's task: load the cursor, pass over a committed item, or take the next one; a fault shows as a failed end or has set the token, and a quiet end means that the token is set or every item is committed |
| `Executor.Round` | crates/gw-engine/src/executor.rs:321-341 | one shard takes its turn or is joined, all others stay in order, and the launch comes nearer to its end |
| `Executor.RunShards` | crates/gw-engine/src/executor.rs:303-341 | under every interleaving of the shards' turns all shards end and are joined, a failed one cancelling the others only then; a failure means that a fault struck some shard in this launch, every fault sets the token, and unless the token is set every cursor is at its shard's end |
| `Executor.Ledger.SetStatus` | crates/gw-storage/src/runledger.rs:98-105 | the run's row takes the new status, or the write fails with or without having set it |
| `Executor.RunLaunch` | crates/gw-engine/src/executor.rs:260-416 | the run's row never says completed while an item is pending, whatever fails; a launch completes exactly if no fault strikes it and nobody cancels it, and then nothing is pending and the row says completed; a returned but incomplete launch was cancelled and the row says halted; any other ending has a fault of this launch behind it |
| `Executor.Conclude` | crates/gw-engine/src/executor.rs:337-416 | after the join: success exactly if no shard failed and no later access did; the row says completed or halted accordingly, and after a failure it may be left at completed only if no shard failed and nobody cancelled |
| `Executor.PendingItems` | crates/gw-engine/src/executor.rs:373-376 | unless a read fails, the pending count is zero exactly when every cursor equals its shard length |
| `Executor.Relaunch` | crates/gw-engine/src/executor.rs:420-528 | after any number of launches, each stopped anywhere, every committed item equals the oracle's uninterrupted outcome; with more launches than faults and cancelled launches every item is committed |
| `Shingles.LessIsStrictOrder` | crates/gw-eval/src/screening_lexical.rs:125-133 | the lexicographic comparison of token tuples is a strict total order |
| `Shingles.NamedCount` | crates/gw-eval/src/screening_lexical.rs:103-113 | an ordered index has as many start positions as distinct windows |
| `Shingles.Merge` | crates/gw-eval/src/screening_lexical.rs:122-135 | the two-pointer merge counts every shared window exactly once |
| `Shingles.Locate` | crates/gw-eval/src/screening_lexical.rs:103-110 | finds a window's place in the ordered map, and whether it is already there |
| `Shingles.NewlyNamed` | crates/gw-eval/src/screening_lexical.rs:104-110 | a new window keeps its first start position and the strict order |
| `Lexical.LengthsHold` | crates/gw-eval/src/screening_lexical.rs:82-88 | the indexed lengths: the n-gram range cut at the segment length, plus the overlap length if the segment reaches it, ascending and without repeats |
| `Lexical.TextIndex.Add` | crates/gw-eval/src/screening_lexical.rs:41-72 | succeeds exactly if the text fits its byte, segment and token limits and the identities left; a success appends the segment of the normalized words; a refusal adds no segment, but keeps what was charged and interned; existing identities never change and only words of the text are new; the byte counter stays the exact sum of the charged texts |
| `Lexical.TextIndex.InternAll` | crates/gw-eval/src/screening_lexical.rs:60-68 | the identities of a text's words in order, under a numbering that stays a bijection; refused exactly if the token limit or the identities run out |
| `Lexical.TextIndex.TokensIdentify` | crates/gw-eval/src/screening_lexical.rs:65-67 | two segments have equal tokens exactly when their normalized word sequences are equal |
| `Lexical.InternKeeps` | crates/gw-eval/src/screening_lexical.rs:65-67 | interning a new word keeps the identities a bijection onto 0, 1, and so on |
| `Lexical.TextIndex.Comparison` | crates/gw-eval/src/screening_lexical.rs:74-77 | charges exactly one comparison, or none when refused |
| `Shingles.PartialCount` | crates/gw-eval/src/screening_lexical.rs:103-110 | an index under construction never has more positions than the segment has distinct windows |
| `Lexical.TextIndex.IndexLength` | crates/gw-eval/src/screening_lexical.rs:89-113 | on success the stored positions are one per distinct window in strict order, and both counters grew by their exact amounts |
| `Lexical.TextIndex.Build` | crates/gw-eval/src/screening_lexical.rs:79-116 | on success every length of every segment is indexed and the counters grew by the exact sums; refused or not, none passes its limit; sums within the limits are never refused |
| `Lexical.TextIndex.Overlap` | crates/gw-eval/src/screening_lexical.rs:118-136 | the sizes of the intersection and the union of the two window sets |
| `Lexical.TextIndex.Matches` | crates/gw-eval/src/screening_lexical.rs:138-168 | exactly the brute-force evidence computed on window sets |
| `Lexical.EvidenceIsExact` | crates/gw-eval/src/screening_lexical.rs:145-167 | evidence of length n exists exactly when the overlap gate holds, n is in range and within both lengths, and the windows are shared to the threshold |
| `Lexical.EvidenceIsSymmetric` | crates/gw-eval/src/screening_lexical.rs:138-168 | swapping the pair swaps the ids and keeps every length and count |
| `Lexical.SharedRunsShorten` | crates/gw-eval/src/screening_lexical.rs:145-147 | a shared n-gram implies a shared m-gram for every smaller m |
| `Lexical.GateIsRedundant` | crates/gw-eval/src/screening_lexical.rs:145-147 | when the required overlap is no longer than the shortest shingle, the gate changes nothing |
| `Components.HalvingKeepsForest` | crates/gw-eval/src/screening_groups.rs:149-155 | one halving step keeps every node's representative and moves strictly up |
| `Components.Root` | crates/gw-eval/src/screening_groups.rs:149-155 | terminates at the representative of the node; halving changes no representative |
| `Components.RelabelIsExact` | crates/gw-eval/src/screening_groups.rs:169-175 | uniting the ends of one edge makes representatives equal exactly for nodes that the larger edge list connects |
| `Components.Unite` | crates/gw-eval/src/screening_groups.rs:168-175 | after the edge loop two nodes share a root exactly when a path of edges connects them |
| `Components.Collect` | crates/gw-eval/src/screening_groups.rs:176-180 | the components are disjoint, cover the population and are the connection classes, each in population order |
| `Components.EdgeOrderIsIrrelevant` | crates/gw-eval/src/screening_groups.rs:169-180 | the components do not depend on the order or repetition of the edges |
| `Lineage.Children` | crates/gw-eval/src/screening_intake.rs:277-282 | the inverted lineage names every child as often as the parent is listed |
| `Lineage.Release` | crates/gw-eval/src/screening_intake.rs:291-297 | releasing a ready node's children never underflows a counter and readies each node once |
| `Lineage.StuckIsCyclic` | crates/gw-eval/src/screening_intake.rs:299-301 | a nonempty set of nodes that all keep a parent in the set contains a directed cycle |
| `Lineage.FindCycle` | crates/gw-eval/src/screening_intake.rs:272-301 | some node stays unvisited exactly when the lineage, repeated parents allowed, has a directed cycle |
| `Intake.Star` | crates/gw-eval/src/screening_intake.rs:142-153 | star edges join only records of one label, and connect all of them |
| `Intake.Chain` | crates/gw-eval/src/screening_intake.rs:123-132 | chain edges join only records of one label, and connect all of them |
| `Intake.ParentsOf` | crates/gw-eval/src/screening_intake.rs:254-270 | the parents of a record are exactly the other records that are the only bearers of a parent id |
| `Intake.DeclaredEdges` | crates/gw-eval/src/screening_intake.rs:107-301 | every edge joins related records, all related records are connected, and the cycle verdict is exact for the resolved ancestry |
| `Intake.ParentSurvives` | crates/gw-eval/src/screening_intake.rs:260-269 | in a larger population a resolved parent stays resolved if and only if no added record carries its record id |
| `Grouping.SplitOf` | crates/gw-eval/src/screening_groups.rs:211-225 | a conflict exactly when two members declare different splits; a split exactly when all members declare that one |
| `Grouping.PriorId` | crates/gw-eval/src/screening_groups.rs:191-196 | a new anchor, the one inherited identity, or the identity of all joined ones |
| `Grouping.NewGroup` | crates/gw-eval/src/screening_groups.rs:189-243 | identity, split, reasons and quarantine of one component, and its part of the grouping identity |
| `Grouping.Groups` | crates/gw-eval/src/screening_groups.rs:157-250 | one group for every connection class and no other, and the grouping identity over groups and edges |
| `Grouping.SharesGroup` | crates/gw-eval/src/screening_groups.rs:176-190 | two records share a group exactly when the edges connect them |
| `Extension.NotInside` | crates/gw-eval/src/screening_groups.rs:192-196 | identities made of previous ones are never nested in one another |
| `Extension.IdsCollide` | crates/gw-eval/src/screening_groups.rs:191-196 | two groups of an extension share an identity if and only if they meet the same, nonempty set of previous groups |
| `Extension.NotSplit` | crates/gw-eval/src/screening_groups.rs:181-191 | a previous group whose members stay connected lies inside every group it meets |
| `Extension.ExtensionIsWellFormed` | crates/gw-eval/src/screening_groups.rs:181-243 | if old members stay connected, the extended plan partitions the population under distinct identities |
| `Extension.InheritsId` | crates/gw-eval/src/screening_groups.rs:192-195 | a group that meets exactly one previous group keeps its identity |
| `Extension.JoinPersists` | crates/gw-eval/src/screening_groups.rs:198-210 | a joined-prior-groups conflict passes to every group of the extension that meets its group |
| `Extension.MatchSurvives` | crates/gw-eval/src/screening_groups.rs:58-105 | old records match in an extension exactly if they matched before |
| `Extension.LexicalSurvives` | crates/gw-eval/src/screening_groups.rs:58-105 | a scan that refuses nothing finds every old lexical edge again |
| `Extension.HarmlessKeeps` | crates/gw-eval/src/screening.rs:187-220 | an extension under the same policy whose scan refused nothing, that withdraws no sibling set and makes no resolved parent ambiguous keeps every group connected |
| `Extension.UnsplitIffLinked` | crates/gw-eval/src/screening_groups.rs:157-250 | a former group lies whole in every new group it meets if and only if the edges found connect it; if every matching pair has its edge, if and only if declared relations and matching units of the new corpus still lead from every member to every other, and otherwise only if |
| `Extension.NoneSplitIsWellFormed` | crates/gw-eval/src/screening_groups.rs:181-243 | if no previous group is split, the new plan partitions the population under distinct, unnested identities |
| `Extension.Extend` | crates/gw-eval/src/screening.rs:52-220 | for every extension: nothing is refused exactly if the limits leave room for the whole scan; if they leave room for the comparisons between records, each previous group stays whole exactly if its members still reach each other, so no group of a harmless extension is split; shingles beyond their limits leave declared edges only; a plan without a split group is well-formed again; the result is a plan of exactly these inputs, ready to be extended in turn |
| `Extension.WithdrawnSetCollides` | crates/gw-eval/src/screening_intake.rs:208-248 | concrete input: two siblings form one group; the same records without their declared sibling set have no edge, and in every plan of the extension two groups carry one identity |
| `Extension.AmbiguousParentCollides` | crates/gw-eval/src/screening_intake.rs:260-269 | concrete input: a parent and its child form one group; a later record of another run with the parent's record id removes the edge, and in every plan of the extension two groups carry one identity |
| `Extension.TwinsArePlanned` | crates/gw-eval/src/screening_groups.rs:58-105 | two records with one text match and form one group |
| `Extension.RefusedScanCollides` | crates/gw-eval/src/screening.rs:187-212 | concrete input, indexed from its texts: a third text takes the extension of that plan past its shingle limit; the refused scan leaves two groups with one identity |
| `Extension.ChainIsWellFormed` | crates/gw-eval/src/screening_groups.rs:181-243 | every plan of a chain has distinct, unnested identities and partitions its population |
| `Extension.ChainKeepsGroups` | crates/gw-eval/src/screening_groups.rs:198-210 | along a whole chain no group is split and a joined-prior-groups conflict persists in every later plan |
| `Extension.ScreeningsAreChain` | crates/gw-eval/src/screening.rs:52-220 | screenings of which each extends the one before, completely and harmlessly, form a chain of plans that keep their groups connected |
| `Extension.OneMoreScreening` | crates/gw-eval/src/screening.rs:52-220 | a harmless extension in which every matching pair has its edge is one more link of the chain |
| `Extension.ScreeningsKeepGroups` | crates/gw-eval/src/screening_groups.rs:181-243 | along any chain of such screenings every plan is well-formed, no group is ever split and a joined-prior-groups conflict persists |
| `Extension.ProtectedMatchesOnlyQuarantine` | crates/gw-eval/src/screening_groups.rs:226-249 | protected matches anywhere along a chain never change members, split, identity or other reasons, and so never the grouping identity |
| `Screening.EvidentIffEvidence` | crates/gw-eval/src/screening_lexical.rs:138-168 | there is evidence exactly when the run gate holds and some length in range is similar |
| `Screening.RecordsMatchSymmetric` | crates/gw-eval/src/screening_groups.rs:70-102 | matching does not depend on which record comes first |
| `Screening.ExactPrompt` | crates/gw-eval/src/screening_groups.rs:11-21 | true exactly for prompts of one shape with equal texts |
| `Screening.LexicalPrompt` | crates/gw-eval/src/screening_groups.rs:31-56 | true exactly if every differing pair of segments has evidence of its own; it charges one comparison for each differing pair up to the first without evidence, and is refused exactly if the limit has no room for them |
| `Screening.CompareUnits` | crates/gw-eval/src/screening_groups.rs:73-100 | linked exactly when the examples, the prompts or the lexical evidence match; a refusal keeps what was found before it; the charge is exact |
| `Screening.EdgesAreBounded` | crates/gw-eval/src/screening_groups.rs:58-105 | all comparisons between records are at most the number of units times the sum of units and prompt segments, a bound that needs no comparison |
| `Screening.LexicalEdges` | crates/gw-eval/src/screening_groups.rs:58-105 | every edge joins matching records; without a refusal every matching pair has one; it is refused exactly if the limit has no room for the exact cost of all pairs |
| `Screening.ProtectedMatches` | crates/gw-eval/src/screening_groups.rs:107-147 | only records that resemble protected content are reported; without a refusal all of them are; it is refused exactly if the limit has no room for the exact cost of all pairs of record and item |
| `Screening.Screen` | crates/gw-eval/src/screening.rs:93-220 | two records share a group only if a chain of declared relations and matching units links them, and a group is marked only if a member resembles protected content; without a refusal both hold conversely too; while the counters are within their limits nothing is refused if and only if the limits leave room for the exact sums of shingles and comparisons; shingle sums beyond their limits leave no lexical edge |
| `Renaming.PairedSize` | crates/gw-eval/src/screening_lexical.rs:60-68 | sets of windows that an injective renaming of tokens pairs off have equal sizes |
| `Renaming.CountsRenamed` | crates/gw-eval/src/screening_lexical.rs:118-136 | shared and united window counts do not depend on the numbers of the words |
| `Renaming.EvidentRenamed` | crates/gw-eval/src/screening_lexical.rs:138-168 | lexical evidence does not depend on the numbers of the words either |
| `Renaming.RecordsMatchAgain` | crates/gw-eval/src/screening_groups.rs:70-102 | two records match in one index exactly when they match in any other index over the same texts |
| `Admission.RunKeepsInv` | crates/gw-engine/src/admission.rs:76-192 | in every interleaving a held attempt is live, stored and held by one caller, and not settled before it is handed over; an admission in flight covers the live set; a finite policy leaves at most one attempt of the run unresolved |
| `Admission.NoIntentAfterSeal` | crates/gw-engine/src/admission.rs:49-60 | after a failed store transaction or a denial was seen, no admission transaction of the launch runs again and no intent is committed |
| `Admission.StaysShut` | crates/gw-engine/src/admission.rs:83-88 | a cancelled launch without an admission in flight never has one again |
| `Admission.OwnerCanSettle` | crates/gw-engine/src/admission.rs:158-170 | whatever happened before, an owner that finds the gate free settles its attempt and learns of it |
| `Admission.GateIsFreed` | crates/gw-engine/src/admission.rs:82-132 | a held gate is never stuck: its holder has a step that brings it nearer to free |
| `Admission.LiveIsNoOrphan` | crates/gw-storage/src/admission.rs:179-193 | a refusal for unresolved attempts always has an attempt that is not live behind it; if all unresolved ones are live the caller waits |
| `Admission.OrphanIsAlwaysDenied` | crates/gw-storage/src/admission.rs:161-193 | an unresolved attempt released before an admission takes its snapshot stays unresolved, and a launch under a finite policy is denied from then on, whatever policies other processes register; nothing is committed any more |
| `Admission.OneUnresolved` | README.md:438-441 | while the run's policy is finite at most one of its attempts is unresolved, whichever process made it and however policies changed before |
| `Admission.StoreObserver.Handle` | crates/gw-engine/src/admission.rs:103-132 | the gate is free again, and either the caller bears a stored, live, unsettled attempt, or it waits, or it bears none and the launch is shut |
| `Admission.StoreObserver.Drop` | crates/gw-engine/src/admission.rs:185-207 | the caller bears nothing and holds no gate; an attempt it leaves is not live, and an orphan unless it is settled |
| `Admission.StoreObserver.Begin` | crates/gw-engine/src/admission.rs:76-141 | with any steps of other callers and processes at its awaits: a caller ends with a fresh, live, unsettled attempt of its own, or is refused by a cancelled launch, or is dropped; a launch that was cancelled before asks for nothing |
| `Admission.StoreObserver.Settle` | crates/gw-engine/src/admission.rs:143-184 | an acknowledged observation is stored, only a settlement settles, and only its bearer's; a lost acknowledgment shuts the launch; a dropped bearer abandons its attempt |
| `Admission.OthersKeep` | crates/gw-engine/src/admission.rs:76-192 | no one else's step changes a caller's phase, its hold of the gate or whether the attempt it bears is settled |
| `Priors.OneVectorPerRecord` | crates/gw-engine/src/priors.rs:111-122 | after any attempted insertions the corpus holds one vector per record, that of the first attempt |
| `Priors.PriorState.Insert` | crates/gw-engine/src/priors.rs:111-122 | appends unless the record has a vector; no cached index survives a new vector |
| `Priors.PriorState.ReadSection` | crates/gw-engine/src/priors.rs:46-53 | an item without vectors sees the whole corpus, which is the plain filter |
| `Priors.PriorState.WriteSection` | crates/gw-engine/src/priors.rs:55-76 | the cached positions are always exactly the item's current ones |
| `Priors.PriorState.Snapshot` | crates/gw-engine/src/priors.rs:45-84 | with other callers between its two sections, a snapshot is the plain filter of the corpus at some moment of the call, in insertion order |
| `Priors.OwnedPositions` | crates/gw-engine/src/priors.rs:58-68 | the excluded positions are exactly the item's and ascend, as the search by halving needs |
| `Priors.Filter` | crates/gw-engine/src/priors.rs:76-83 | the vectors found by that search are the plain filter's, in order |
| `ToolCalls.StreamedToolCalls.Push` | crates/gw-generate/src/tool_calls.rs:21-47 | appends a batch; the state depends only on the fragments pushed so far, and an invalid stream stays invalid |
| `ToolCalls.StreamedToolCalls.Finish` | crates/gw-generate/src/tool_calls.rs:54-96 | returns a list exactly when the stream finished with tool calls, the list is nonempty and complete, and its fragments are what arrived, in whatever batches and interleaving |
| `ToolCalls.Assemble` | crates/gw-generate/src/tool_calls.rs:67-95 | returns the one complete listing of the accumulated calls with indices 0 to n-1, or an error if there is none |
| `ToolCalls.InvalidForEver` | crates/gw-generate/src/tool_calls.rs:23-37 | an unsupported kind or a conflicting identity stays fatal whatever arrives later |
| `ToolCalls.InterleavingIsIrrelevant` | crates/gw-generate/src/tool_calls.rs:21-47 | only the order within one index matters |
| `ToolCalls.CallsAreUnique` | crates/gw-generate/src/tool_calls.rs:69-94 | the fragments determine the calls |
| `Identity.RecordIdIsInjective` | crates/gw-engine/src/seed.rs:132-140 | a minted id determines run, shard, seed, attempt and completion, for every run string |
| `Identity.ItemIdIsInjective` | crates/gw-engine/src/priors.rs:34-37 | an item id determines run, shard and seed |
| `Identity.RecordItemIdInverts` | crates/gw-engine/src/priors.rs:39-43 | cutting a minted id at its last attempt marker gives the item id, even if the run id holds a marker |
| `Identity.ShardOfInverts` | crates/gw-engine/src/attempts.rs:70-75 | the shard parser recovers every signed 64-bit shard from a minted id |
| `Identity.ParseOfSigned` | crates/gw-engine/src/attempts.rs:75 | parsing the decimal form of a signed 64-bit number gives it back |
| `Identity.ShardsPartition` | crates/gw-engine/src/seed.rs:107-122 | every item is in exactly one shard, once, with its own seed and candidate |
| `Identity.ItemsAreDistinct` | crates/gw-engine/src/seed.rs:117 | different items of a run never share an item id, wrapping seeds included |
| `Text.FoundAfterFree` | crates/gw-format/src/ingest.rs:340-341 | an unbordered delimiter is first found right after a text free of it |
| `Channels.PairInverts` | crates/gw-format/src/ingest.rs:334-349 | a marker pair strips to what was framed if and only if the reasoning is free of the close marker |
| `Channels.PairReframes` | crates/gw-format/src/ingest.rs:334-349 | what a marker pair strips frames back to the same text |
| `Channels.ChatMlInverts` | crates/gw-format/src/render/chatml.rs:38-43 | stripping the ChatML framing gives back content and reasoning, a trailing newline included, if and only if the reasoning is free of the close marker |
| `Channels.ChatMlReframes` | crates/gw-format/src/ingest.rs:334-349 | what strips as ChatML frames back to the same text |
| `Channels.GemmaInverts` | crates/gw-format/templates/gemma4.jinja:41-48 | the same for the Gemma-4 framing, whose own newline is trimmed |
| `Channels.EmptyGemmaInverts` | crates/gw-format/templates/gemma4.jinja:41-48 | the empty channel of a stripped turn is present but empty |
| `Channels.HarmonyInverts` | crates/gw-format/src/render/harmony.rs:48-59 | the Harmony framing strips to the turn if and only if the reasoning is free of its end marker and the content of the return marker |
| `Channels.FinalAloneIsKept` | crates/gw-format/src/ingest.rs:352-366 | a Harmony turn without reasoning is not undone: its text is kept whole, and ingest refuses it |
| `Channels.CleanIsKept` | crates/gw-format/src/ingest.rs:316-328 | a text free of control tokens strips to itself without reasoning |
| `Channels.IngestInverts` | crates/gw-format/src/ingest.rs:82-110 | ingest accepts every framing of a clean turn and gives back exactly the turn |
| `Channels.IngestIsClean` | crates/gw-format/src/ingest.rs:82-92 | whatever ingest accepts is free of control tokens |
| `Promote.NoiseBand` | crates/gw-eval/src/promote.rs:176-182 | a band exists exactly for finite parameters and a finite sum; it is the sum where that is positive and zero otherwise |
| `Promote.ValidateResults` | crates/gw-eval/src/promote.rs:260-281 | reports exactly the reserved names and the non-finite scores of one side |
| `Promote.NoIssueIffValid` | crates/gw-eval/src/promote.rs:393-445 | an evaluation has no issue exactly when its evidence is complete and all its arithmetic is finite |
| `Promote.Compare` | crates/gw-eval/src/promote.rs:398-441 | an outcome exactly when both scores and all arithmetic are finite, and otherwise exactly the missing scores, the overflowed delta or the overflowed band |
| `Promote.Promote` | crates/gw-eval/src/promote.rs:373-475 | promotes exactly by the rule: drift gate, valid evidence for every required metric, no regression, at least one win; reports exactly the issues of the evaluation |
| `Promote.Rederive` | crates/gw-eval/src/promote.rs:342-362 | decides from the sealed deltas and priors alone |
| `Promote.RederivationAgrees` | crates/gw-eval/src/promote.rs:342-362 | at any new thresholds, non-finite ones included, re-derivation equals valid evidence and a promotion on the original inputs |
| `Promote.PromotionIsSafe` | crates/gw-eval/src/promote.rs:365-371 | a promotion means every supplied metric is present and finite on both sides, none regressed, and the drift gate passed |

## Left out

- Executor.Launch.RunShard: the circuit breaker may trip on any errored item; its count of consecutive items over all shards is not modelled.
- Executor.Launch.Generate: the quality gate, the prior snapshot and the truncation retry are one generation with a fixed outcome; in the code a cancellation between its two teacher calls parks the sibling, and the diversity gate may depend on what other items admitted meanwhile.
- Executor.Launch.Advance: what the verifier and the judge panel compute is an oracle per record id; the grading arithmetic and the grade cache are not part of this model.
- Executor.Launch.ReadGroup: the checks of a stored record's verification contract and of the seed, made here and when a launch registers, never fail.
- Executor.Launch.Retain: deriving the decision again from a persisted judging block, in election, retention and reconciliation, never fails here; in the code a block from which no verdict follows is a record-level error (`crates/gw-judge/src/grader.rs:380-391`).
- Executor.RunShards: a turn of a shard is one iteration of its loop; within an iteration other shards act only through the token, which may be set before any poll. The cap on items in flight is left out.
- Executor.RunLaunch: the export and the counts may fail, but what they contain is left out, except for halting and the pending count; the export's own step of a row is one that `BestOfK` allows to anyone. The first failure is not told from later ones.
- Lexical.TextIndex.Matches: the similarity is compared over the reals, not in double precision.
- Lexical.TextIndex.IndexLength: segment and shingle lengths are unbounded here; declaration validation keeps them within 32 bits.
- Intake.DeclaredEdges: edges carry no kind, and of the incompleteness findings only the cyclic lineage is kept; loops over different labels run one after the other, since the edges are sorted afterwards.
- Grouping.Groups: groups come in leader order, not sorted by their hashed identity; a reason's subject, which is the group itself, is omitted.
- Screening.LexicalPrompt: only the verdict is returned, without the evidence of each pair of segments.
- Screening.LexicalEdges: an edge joins two records once, without its kind and its evidence.
- Screening.ProtectedMatches: only the matching records are returned, without the items and the evidence.
- Screening.Screen: the projection of records into prompts and segments, and a limit reached there, strata, and the check that a previous plan is unaltered are left out.
- Admission.RunKeepsInv: spend, coverage and evidence checks are arbitrary denials before or after the check for unresolved attempts; advisory snapshots and a launch without a captured policy are left out.
- Admission.StoreObserver.Begin: timers and notifications only end a wait; a wait takes a given number of turns, after which the caller is dropped.
- Priors.PriorState.Snapshot: the embedding request between lookup and insertion is left out; insertion checks again under the lock.
- ToolCalls.StreamedToolCalls.Finish: the JSON parser is a parameter; tool selection is not modelled.
- Identity.ShardsPartition: the file-backed seed plan and its content hash are left out.
- Channels.IngestInverts: one assistant turn of plain text; content parts, tool calls, reasoning details and whole conversations are left out.
- Promote.Promote: metrics are compared in any order; the reason text is omitted, and rounding is a parameter.
- Provider transport, streaming, rate limits, SQLite and Parquet internals, publication recovery: each store call is one atomic guarded update.
- Command line, configuration layers, tracing, terminal interface and wiring: no property spans them.
- Outcome analysis, separation and other statistics: float folds and field-by-field validation.
- Fairness of the gate and of the timers.
