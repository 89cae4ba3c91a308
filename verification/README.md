# Models of a graph database's client, canvas and benchmark code

A Dafny 4.11 project about the parts of the repository where the order of steps decides
the outcome. Code that changes state is modelled by classes and methods with loops, each
proved equal to a specification function; the results are then lemmas over every input,
every run or every reachable state of those specifications. `dafny verify dfyconfig.toml`
takes in all files.

- **Transactions** (`TxHandle`, `TxProtocol`, `TxSafety`, `TxProgress`, `TxCallback`,
  `TxWrapper`). One client handle,
  the requests it has sent and the server's slot for it, as a state machine whose events
  are calls, server steps, expiry, time-outs, answers and lost answers in any order. An
  invariant of every run gives what each answer proves: open means nothing applied, a
  bookmark means applied once for good, unknown means silent, and what `transaction`
  guarantees around a callback. The progress results say what each answer leads to.
- **Association rules** (`Rules`, `Leaves`, `Derivation`, `History`, `LastWriter`, `Multihop`). Brute-force
  derivation, the one-node form, replay to a day, retraction and the two-hop question, each
  loop against a quantified definition, and incremental maintenance along any history.
- **Hand-rolled matching** (`Handrolled`, `Drift`). Chunked ingest and both update loops on
  shared mutable node objects end in exactly the edges the rule derives.
- **Fragmentation** (`Fragmentation`, `Projection`, `Probe`). Which predicates survive
  splitting a node into aliases, with exact conditions, lifted to whole worlds.
- **Change log** (`Changelog`, `StoreDays`, `Decimal`). The generator for every outcome of
  its draws, and the day-to-commit map of the written store.
- **Canvas** (`Canvas`, `CanvasEvents`, `GraphStore`, `Expand`, `ExpandResult`,
  `ExpandPayload`). The explorer's store over
  every run of operations and events, and exactly what expanding a node leaves.
- **Scheduling** (`MapPool`, `Resync`, `Watch`, `WatchLink`). The bounded pool, the
  single-flight gate and the reconnecting socket under every schedule.
- **Text** (`Cypher`, `TokenShapes`, `Highlight`, `Grader`, `Subsequence`). A lossless tokenizer, a
  reversible highlighter, substring grading, and a greedy subsequence check.

## Where the code differs from its documentation

The models follow the code. In each case there is a concrete counterexample and the exact
condition under which the documented property holds.

- An expiry error is documented to mean that nothing was committed
  (clients/typescript/src/types.ts:945-950). A statement that raced an applied commit gets
  it too: `ExpiredStatementBesideCommit`. It holds in the open state and in no other:
  `ExpiryProvesIff`.
- `isFinished` (clients/typescript/src/client.ts:197-200) can become false again:
  `FinishedHandleReopens`; exactly when a commit call still waits: `FinishedIsFinalIff`.
- Leaf rules are said to lose nothing under splitting
  (benchmarks/fragmentation/probe.py:43-71). A Jaccard leaf on a list field can gain an
  edge, a radius leaf on one can lose an edge; `LeafExactIff` gives the leaves for which it
  holds.
- `multihop` (benchmarks/agent-tasks/association/truth.py:352-379) misses nodes when no
  type is wanted or the bound is below one, and only then: `ExactIff`.
- The resync gate (ui/src/live.ts:182-205) forgets a request made during a run that
  rejects: `RejectionLosesARequest`, `IdleUnservedIff`.
- A `related` edge in a payload is removed by a typed edge between the same nodes that is
  merged after it (ui/src/store.ts:143-145): `RelatedIsOvertaken`, `ShownIff`.
- The build-time check is meant to make grading exact
  (benchmarks/agent-tasks/association/build_tasks.py:144-173); it accepts repeated entries,
  which then count more than once: `RepeatedNearMiss`, `CountsEntriesIff`.

## Model

| member | source | states |
|---|---|---|
| `TxHandles.TxHandle.AssertOpen` | clients/typescript/src/client.ts:202-214 | true exactly in the open state; a committing, unknown or finished handle refuses |
| `TxHandles.TxHandle.CommitStart` | clients/typescript/src/client.ts:243-247 | a request goes out exactly from an open handle, which is committing from then on |
| `TxHandles.TxHandle.CommitAnswered` | clients/typescript/src/client.ts:248-271 | the new state for every outcome, and exactly when the server has to be asked first |
| `TxHandles.TxHandle.ProbeAnswered` | clients/typescript/src/client.ts:280-287 | open when the server still holds the transaction, finished when it does not know it, unknown on every other outcome |
| `TxHandles.TxHandle.RollbackStart` | clients/typescript/src/client.ts:298-303 | sends only when open, throws when committing or unknown, is silent when finished |
| `TxHandles.TxHandle.RollbackAnswered` | clients/typescript/src/client.ts:304-311 | the new state, and that every failure but an expiry is thrown on |
| `TxProtocol.ExecConcat` | clients/typescript/src/client.ts:172-312 | a run continued is the run of both parts; the safety results below extend any run by any continuation through it |
| `TxProtocol.CommitStartKeepsInv` | clients/typescript/src/client.ts:243-247 | sending a commit keeps the invariant: older commit requests are over and never held the transaction |
| `TxProtocol.ArriveKeepsInv` | crates/server/src/tx.rs:375-397 | a request reaching the transaction map (checked out, busy, 404 or 410, probe answered) keeps the invariant |
| `TxProtocol.RefuseKeepsInv` | crates/server/src/http.rs:1105-1131 | a request turned away before the transaction map keeps the invariant |
| `TxProtocol.TimeOutKeepsInv` | crates/server/src/http.rs:1110-1116 | a 408 answered while the work still runs keeps the invariant |
| `TxProtocol.EndRunKeepsInv` | crates/server/src/tx.rs:817-861 | a statement ending keeps the invariant: answered, failed with any engine status, panicked (the slot goes), shut down, or after the slot was removed (404 or 410) |
| `TxProtocol.EndCommitKeepsInv` | crates/server/src/tx.rs:863-902 | a commit ending in any verdict keeps the invariant: at most one application, and a bookmark only with it |
| `TxProtocol.EndRollbackKeepsInv` | crates/server/src/tx.rs:905-918 | a rollback ending keeps the invariant |
| `TxProtocol.ReapKeepsInv` | crates/server/src/tx.rs:553-573 | an expiry at any moment keeps the invariant |
| `TxProtocol.SettleCommitKeepsInv` | clients/typescript/src/client.ts:248-271 | an answer to a commit, or its loss, keeps the invariant |
| `TxProtocol.ProbeSentKeepsInv` | clients/typescript/src/client.ts:258-271 | the probe sent after an ambiguous commit keeps the invariant |
| `TxProtocol.SettleProbeKeepsInv` | clients/typescript/src/client.ts:280-287 | an answer to the probe, or its loss, keeps the invariant |
| `TxProtocol.SettleOtherKeepsInv` | clients/typescript/src/client.ts:298-311 | an answer to a statement or a rollback, or its loss, keeps the invariant |
| `TxProtocol.DriveHandle` | clients/typescript/src/client.ts:172-312 | the handle object, driven through any run, is in the state the machine gives it and sends exactly when it does |
| `TxProtocol.RunKeepsInv` | clients/typescript/src/client.ts:172-312 | the invariant (one holder of the transaction, one commit that can act, what each answer proves, what the handle may believe) holds after every interleaving of calls, server steps, answers and losses |
| `TxSafety.OpenMeansNothingApplied` | clients/typescript/src/client.ts:177-185 | in every run, while the handle is open nothing was applied and no commit request ever sent can still act |
| `TxSafety.AtMostOneCommit` | clients/typescript/src/client.ts:243-271 | in every run: one commit call at a time, one commit request that can act, one application |
| `TxSafety.UnknownIsSilent` | clients/typescript/src/client.ts:202-214 | once unknown, no continuation sends another request |
| `TxSafety.BookmarkMeansAppliedOnce` | clients/typescript/src/client.ts:243-257 | a returned bookmark means applied exactly once, now and after any continuation, and the handle never sends again |
| `TxSafety.EndedCommitNeverApplied` | clients/typescript/src/client.ts:258-271 | a commit that threw a conflict, a constraint refusal or an expiry was not applied and never will be |
| `TxSafety.FinishedIsFinalIff` | clients/typescript/src/client.ts:197-200 | a finished handle stays finished under every continuation if and only if no commit call is still waiting |
| `TxSafety.FinishedHandleReopens` | clients/typescript/src/client.ts:298-311 | the counterexample: a rollback finishes the handle, a busy commit reopens it on a transaction that is gone |
| `TxSafety.FinishedMayHaveAppliedWithoutBookmark` | clients/typescript/src/client.ts:258-287 | a timed-out commit that landed ends finished and applied with only an error reported |
| `TxSafety.ExpiryWhileOpenIsFinal` | clients/typescript/src/types.ts:945-950 | an expiry answered while the handle is open: nothing is applied in any continuation |
| `TxSafety.ExpiryProvesIff` | clients/typescript/src/types.ts:945-950 | that an expiry means nothing was or will be committed holds in the open state and in none of the other three |
| `TxSafety.ExpiryFinalIff` | clients/typescript/src/types.ts:945-950 | run by run: after an expiry nothing is ever applied if and only if nothing was and no commit is still at work on the server |
| `TxSafety.ExpiredStatementBesideCommit` | clients/typescript/src/types.ts:945-950 | the documented "nothing was committed" fails for a statement that raced an applied commit |
| `TxProgress.CommitAnswerDecides` | clients/typescript/src/client.ts:243-271 | in every run, what each answer to a commit leads to: the bookmark returned, open again on busy, finished with conflict, constraint or expiry as answered, or the probe sent |
| `TxProgress.ProbeAnswerDecides` | clients/typescript/src/client.ts:280-287 | in every run, a probe told the transaction is held leaves the handle open, told it is unknown finished, refused otherwise unknown; the commit's own error is reported |
| `TxProgress.RollbackAnswerDecides` | clients/typescript/src/client.ts:298-311 | in every run, a rollback done or answered 404 or 410 finishes the handle without error; any other refusal is thrown and leaves the handle |
| `TxProgress.StatementAnswerDecides` | clients/typescript/src/client.ts:222-228 | in every run, a statement's answer resolves or throws and never moves the handle |
| `TxProgress.LostAnswerDecides` | clients/typescript/src/client.ts:266-271 | a lost answer to a commit or probe leaves the outcome unknown, any other nothing |
| `TxProgress.HandleAfter` | clients/typescript/src/client.ts:172-312 | the handle's state after any event of any run, told from the server's answers alone |
| `TxProgress.UnknownHasCause` | clients/typescript/src/client.ts:177-185 | the handle is unknown only if a commit's or probe's answer was lost or a probe was refused with something other than 404 or 410 |
| `TxProgress.CallsSend` | clients/typescript/src/client.ts:222-311 | an open handle sends one request of the kind called and waits for it, any other sends nothing |
| `TxProgress.ArrivalDecides` | crates/server/src/tx.rs:375-457 | in every run, a request that arrives gets a free transaction, busy, or 404/410; a probe is only told |
| `TxProgress.StatementEnds` | crates/server/src/tx.rs:817-861 | what each end of a statement leaves of the slot and answers |
| `TxProgress.VerdictDecides` | crates/server/src/tx.rs:863-902 | from the engine's verdict to what the caller of `commit` gets: a bookmark and the writes applied, a conflict, a constraint error, or the probe |
| `TxProgress.StatementGoesThrough` | clients/typescript/src/client.ts:222-228 | a statement on a live transaction resolves and leaves it live |
| `TxProgress.CommitGoesThrough` | clients/typescript/src/client.ts:243-251 | a commit on a live transaction that the engine accepts returns its bookmark, applied once |
| `TxProgress.RollbackGoesThrough` | clients/typescript/src/client.ts:298-303 | a rollback on a live transaction ends it on the server, nothing applied |
| `TxProgress.ShedCommitReopens` | clients/typescript/src/client.ts:258-287 | a commit turned away before the engine leaves, after the probe, a live transaction |
| `TxCallback.PlayKeepsSession` | clients/typescript/src/client.ts:1135-1160 | what the wrapper awaits is always a call the handle is really waiting for |
| `TxCallback.ReturnsOnlyFinished` | clients/typescript/src/client.ts:1135-1160 | `transaction` returns only with the handle finished, and after its own commit only with the writes applied exactly once |
| `TxCallback.RethrowsCallbackError` | clients/typescript/src/client.ts:1146-1155 | after the callback throws, the only possible end is that same error, whatever the rollback does |
| `TxCallback.AllOrNothing` | clients/typescript/src/client.ts:1135-1160 | if the callback does not commit itself: a rejection that is not the commit's own means nothing applied, a return means applied exactly when the wrapper committed |
| `TxWrapper.PlayIsARun` | clients/typescript/src/client.ts:1135-1160 | a session's handle and server are those of a run, so every result on runs applies |
| `TxWrapper.ResolvingDecides` | clients/typescript/src/client.ts:1156-1159 | when the callback resolves: one commit sent and awaited on an open handle, a return on a finished one, a rejection on any other |
| `TxWrapper.ThrowingDecides` | clients/typescript/src/client.ts:1138-1155 | when the callback throws: one rollback sent and awaited on an open handle, the callback's error at once on any other |
| `TxWrapper.RefusedOnlyBesideCommit` | clients/typescript/src/client.ts:1156-1159 | the handle's refusal is the rejection only if the callback resolved while a commit was in flight or its outcome unknown |
| `TxWrapper.OnlyTheAwaitedCallMoves` | clients/typescript/src/client.ts:1135-1160 | nothing moves the wrapper but the end of the callback and of the call it awaits |
| `TxWrapper.CommitAnswerEnds` | clients/typescript/src/client.ts:1156-1159 | how each answer to the wrapper's commit ends it: a bookmark returns with the writes applied, a refusal rejects with its own error |
| `TxWrapper.ProbeEnds` | clients/typescript/src/client.ts:1156-1159 | after a probe, however it ends, the rejection is the commit's error |
| `TxWrapper.LostCommitEnds` | clients/typescript/src/client.ts:266-271 | a lost answer to the wrapper's commit rejects with the network's error and leaves the handle unknown |
| `TxWrapper.RollbackEndsSession` | clients/typescript/src/client.ts:1140-1155 | however the rollback ends, the rejection is the callback's error |
| `TxWrapper.ResolvedIsCommitted` | clients/typescript/src/client.ts:1135-1160 | a callback that resolves on a live transaction the engine accepts is returned, applied once |
| `TxWrapper.ThrownIsRolledBack` | clients/typescript/src/client.ts:1135-1160 | one that throws on a live transaction is rolled back on the server and rejected with its error |
| `Derivation.ByLabel` | benchmarks/agent-tasks/association/truth.py:199-203 | the groups hold each node once, under its label |
| `Derivation.LinkAll` | benchmarks/agent-tasks/association/truth.py:214-227 | exactly the edges one rule gives between two lists |
| `Derivation.DerivedEdges` | benchmarks/agent-tasks/association/truth.py:206-227 | the set holds an edge if and only if some rule links two nodes of its labels whose properties pass its predicate; a node may be linked to itself |
| `Derivation.EdgesOf` | benchmarks/agent-tasks/association/truth.py:230-254 | the one-node form gives exactly the derived edges at that node, and nothing for an unknown key |
| `Derivation.UntouchedKept` | benchmarks/agent-tasks/association/truth.py:230-254 | a change to one node cannot change a derived edge that does not touch it |
| `Derivation.ReplaceOneNode` | benchmarks/agent-tasks/association/truth.py:230-254 | old edges less the node's old ones plus its new ones are the new world's edges; what is lost is exactly the difference at the node |
| `Leaves.FieldEqualIff` | benchmarks/agent-tasks/association/truth.py:141-144 | holds exactly when both nodes store the same scalar, so never of an integer and a float |
| `Leaves.FieldEqualGroups` | benchmarks/agent-tasks/association/truth.py:141-144 | symmetric and transitive |
| `Leaves.OverlapIff` | benchmarks/agent-tasks/association/truth.py:145-154 | holds exactly when a scalar is shared and the shared ones are at least `min` of all |
| `Leaves.OverlapInIntegers` | benchmarks/agent-tasks/association/truth.py:145-154 | for a fraction, the same cross-multiplied in whole numbers |
| `Leaves.WithinIff` | benchmarks/agent-tasks/association/truth.py:164-172 | holds exactly when the second number is within the tolerance of the first on either side, the tolerance finite and not negative |
| `Leaves.RadiusIff` | benchmarks/agent-tasks/association/truth.py:155-163 | holds exactly of two valid places within a finite positive radius |
| `Leaves.RadiusBoundary` | benchmarks/agent-tasks/association/truth.py:155-163 | from the radius that is the distance on, and below it not |
| `Leaves.PartsAsASet` | benchmarks/agent-tasks/association/truth.py:173-176 | "all" and "any" depend on the set of parts; of no parts neither holds |
| `Leaves.EvalIsSymmetric` | benchmarks/agent-tasks/association/truth.py:139-176 | every predicate, however nested, says the same of a pair either way round |
| `Leaves.OneLabelDerivesBothWays` | benchmarks/agent-tasks/association/truth.py:206-227 | a rule within one label derives each edge both ways |
| `Leaves.FieldRuleDerives` | benchmarks/agent-tasks/association/truth.py:206-227 | the edges of a same-field rule, in terms of the stored values |
| `History.ReplayTo` | benchmarks/agent-tasks/association/truth.py:285-312 | the loop that stops at the first later change computes the replay of the longest prefix dated up to the day |
| `History.ReplayConcat` | benchmarks/agent-tasks/association/truth.py:285-312 | replaying in two parts is replaying the whole |
| `History.MaintainedIsDerived` | benchmarks/agent-tasks/association/truth.py:230-254 | along any change history, re-deriving only the changed key keeps the set equal to brute force at every step |
| `History.BetweenIsSlice` | benchmarks/agent-tasks/association/truth.py:300-311 | in day order, the changes dated in an interval are one slice of the log |
| `History.StateAtAdvances` | benchmarks/agent-tasks/association/truth.py:285-312 | in day order, the state of a later day is the earlier state followed by exactly the changes dated between |
| `History.ReplayNeedsDayOrder` | benchmarks/agent-tasks/association/truth.py:300-311 | out of day order that fails: a concrete log |
| `LastWriter.NodeFollowsLast` | benchmarks/agent-tasks/association/truth.py:296-312 | a node is there, with its label, if the last change that made or removed it made it; if none did, as before |
| `LastWriter.FieldFollowsLast` | benchmarks/agent-tasks/association/truth.py:296-312 | a field holds what the last change that bears on it says, and what it held if none does |
| `LastWriter.StateByLastWriter` | benchmarks/agent-tasks/association/truth.py:285-312 | on a day, the last change dated up to it decides each field, and the base if there is none |
| `History.Retraction` | benchmarks/agent-tasks/association/truth.py:315-328 | exactly the edges the whole world loses when the field is set, or the missing key reported |
| `Multihop.Collect` | benchmarks/agent-tasks/association/truth.py:360-372 | the table holds a type at (target, source) exactly when a wanted edge of that type joins them, either way round |
| `Multihop.CountFull` | benchmarks/agent-tasks/association/truth.py:373-379 | the number of sources that carry every wanted type |
| `Multihop.Answer` | benchmarks/agent-tasks/association/truth.py:352-379 | exactly the touched targets reached by at least the given number of sources through every wanted type |
| `Multihop.ExactIff` | benchmarks/agent-tasks/association/truth.py:352-379 | the answer is the definition without "touched", for every world, if and only if some type is wanted and the bound is at least one |
| `Multihop.NearMissesAreOneShort` | benchmarks/agent-tasks/association/build_tasks.py:256-283 | the near-misses of a task are exactly the targets one source short |
| `Handrolled.Row` | benchmarks/adapters/handrolled.py:155-160 | the pairs of one talent are exactly those that match |
| `Handrolled.AllPairs` | benchmarks/adapters/handrolled.py:154-169 | the nested loops list exactly the matching pairs |
| `Handrolled.InsertBatches` | benchmarks/adapters/handrolled.py:211-224 | batches lose and add nothing |
| `Handrolled.NewPairs` | benchmarks/adapters/handrolled.py:154-169 | new talents against all companies and new companies against old talents meet every new pair, each once |
| `Handrolled.IngestChunk` | benchmarks/adapters/handrolled.py:138-169 | after each chunk the edge set is exact for what has been ingested |
| `Handrolled.Ingest` | benchmarks/adapters/handrolled.py:138-224 | chunked ingest ends with exactly the matching pairs, whatever the chunk size |
| `Handrolled.WriteSpecialties` | benchmarks/adapters/handrolled.py:250-251 | the write through the shared object changes one entry of one view |
| `Handrolled.ReplaceRowBatched` | benchmarks/adapters/handrolled.py:236-268 | collecting and committing together replaces the talent's row |
| `Handrolled.ReplaceRowNaive` | benchmarks/adapters/handrolled.py:396-429 | one operation at a time replaces the same row |
| `Handrolled.UpdateAll` | benchmarks/adapters/handrolled.py:235-283 | after every update, also one for a key that is no talent, the rows of the talents are exact under the specialties then current |
| `Handrolled.Run` | benchmarks/adapters/handrolled.py:138-283 | ingest and updates together: the final set is exactly the matching pairs under the final specialties, which are the updates applied |
| `Handrolled.AppliedIsLast` | benchmarks/adapters/handrolled.py:235-251 | the last update of a key wins |
| `Handrolled.AppliedTwice` | benchmarks/adapters/handrolled.py:690-701 | applying the updates again to objects already written changes nothing |
| `Handrolled.CollectEdges` | benchmarks/adapters/handrolled.py:87-97 | exactly the rows of the given keys |
| `Handrolled.RunBoth` | benchmarks/adapters/handrolled.py:690-701 | the per-operation and the batched run, on shared objects, end in the same set |
| `Drift.MatchIsOverlap` | benchmarks/adapters/handrolled.py:73-80 | the script's Jaccard test agrees with the rule's on every two lists, empty ones included |
| `Drift.ZeroDrift` | benchmarks/adapters/handrolled.py:713-727 | an exact set differs in no edge from what the rule derives over the same nodes |
| `Fragmentation.DealList` | benchmarks/fragmentation/probe.py:81-84 | a list field is dealt item by item: each alias gets its share in order, or no field |
| `Fragmentation.DealField` | benchmarks/fragmentation/probe.py:78-87 | one field goes where the source puts it and no other field moves |
| `Fragmentation.Fragment` | benchmarks/fragmentation/probe.py:74-89 | the aliases are exactly the specified ones: keys, labels, every field of every alias |
| `Projection.TokensKept` | benchmarks/fragmentation/probe.py:81-84 | an alias has no list token the node lacks |
| `Projection.TokenHeld` | benchmarks/fragmentation/probe.py:81-84 | every list token is on some alias |
| `Projection.LeafExactIff` | benchmarks/fragmentation/probe.py:43-71 | splitting cannot change a leaf rule's edges, for any nodes and draws, if and only if the leaf is one of the kept forms; a Jaccard or radius leaf on a list field is not, against the comment |
| `Projection.OverlapGains` | benchmarks/fragmentation/probe.py:43-71 | every positive Jaccard threshold on a list field can gain an edge |
| `Projection.RadiusLoses` | benchmarks/fragmentation/probe.py:43-71 | every radius on a list field can lose one |
| `Projection.ExactPair` | benchmarks/fragmentation/probe.py:115-126 | for any combination by "any" of kept leaves: some pair of aliases is linked exactly when the nodes are |
| `Projection.SoundPair` | benchmarks/fragmentation/probe.py:115-126 | for any nesting of kept leaves: linked aliases mean linked nodes |
| `Projection.ConjunctionSurvivesIff` | benchmarks/fragmentation/probe.py:43-71 | a conjunction that held survives exactly when one alias on each side carries every field it reads |
| `Projection.CanonicalHoldsIff` | benchmarks/fragmentation/probe.py:115-126 | the canonical alias alone sees a leaf edge exactly when the field was dealt to it |
| `Probe.CanonicalOfAlias` | benchmarks/fragmentation/probe.py:92-93 | `canonical` undoes the alias suffix and leaves plain keys alone |
| `Probe.AliasKeysDiffer` | benchmarks/fragmentation/probe.py:74-89 | different aliases of a node have different keys |
| `Probe.CanonicalIsFirst` | benchmarks/fragmentation/probe.py:96-97 | alias 0 is canonical and no other is |
| `Probe.SplitNodes` | benchmarks/fragmentation/probe.py:106-114 | the loop builds the split world for any choice of nodes |
| `Probe.StandInsDistinct` | benchmarks/fragmentation/probe.py:106-114 | no two nodes of the split world share a key |
| `Probe.ProjectedIsPairwise` | benchmarks/fragmentation/probe.py:115-126 | the projected edge set, derived over the whole split world, is decided pair by pair |
| `Probe.LeafRulesLoseNothing` | benchmarks/fragmentation/probe.py:115-126 | with "any" of kept leaves the projection is exactly the unsplit edge set |
| `Probe.ConjunctionsAddNothing` | benchmarks/fragmentation/probe.py:115-126 | with conjunctions it never adds an edge |
| `Probe.CanonicalIsPairwise` | benchmarks/fragmentation/probe.py:115-117 | the reading restricted to canonical sources, over the whole split world, is decided pair by pair |
| `Probe.CanonicalKeepsIff` | benchmarks/fragmentation/probe.py:115-117 | with leaf rules over whole fields it keeps an edge if and only if some rule that gives it reads a field dealt to the source's canonical node |
| `Probe.ProjectedBetweenNodes` | benchmarks/fragmentation/probe.py:115-126 | projected edges are between original keys only |
| `Decimal.ParseDigits` | dogfood/synthesize.py:132 | reading a written number gives the number |
| `Decimal.PaddedInjective` | dogfood/synthesize.py:132 | zero-padding to any width keeps numbers apart |
| `Changelog.NodeKeyInjective` | dogfood/synthesize.py:132-175 | a key names one label and one index |
| `Changelog.Generator.FreshNode` | benchmarks/agent-tasks/association/build.py:307-324 | a new entity's key was never used, in the base or by any change |
| `Changelog.Generator.Pick` | benchmarks/agent-tasks/association/build.py:270-273 | a live key not touched that day, or none exactly when there is none |
| `Changelog.Generator.OneChange` | benchmarks/agent-tasks/association/build.py:227-250 | the change fits the live world, the live world becomes the change applied, and the fallback to an insert happens only when nothing can be picked |
| `Changelog.NextChange` | benchmarks/agent-tasks/association/build.py:205-224 | one turn of the loop keeps all that is known of the history so far |
| `Changelog.Generate` | benchmarks/agent-tasks/association/build.py:196-224 | for every outcome of the draws: the log is in day order, each change applies, no entity is touched twice in a day or again after its deletion, and the live world is the replay of the whole log |
| `StoreDays.GroupByDay` | benchmarks/agent-tasks/association/build.py:655-662 | each day's list is that day's changes in order |
| `StoreDays.WriteDay` | benchmarks/agent-tasks/association/build.py:663-685 | after a day the log holds the changes up to it and the entry is its last commit |
| `StoreDays.WriteHistory` | benchmarks/agent-tasks/association/build.py:655-685 | every day is mapped, the eventless ones to the commit before them |
| `StoreDays.PrefixIsStateAt` | benchmarks/agent-tasks/association/build.py:655-685 | replaying the log up to a day's commit gives that day's state |
| `StoreDays.CommitsFollowDays` | benchmarks/agent-tasks/association/build.py:655-685 | commits never go back, two days share one exactly when no change lies between, and the distance is the number of changes |
| `Canvas.MergeKeeps` | ui/src/store.ts:130-149 | a merge keeps the store sound and the selection live |
| `Canvas.ApplyKeeps` | ui/src/store.ts:257-291 | so does every watch event |
| `Canvas.LiveKeeps` | ui/src/live.ts:129-152 | and every event on the live path |
| `Canvas.DoKeeps` | ui/src/store.ts:99-461 | and every other operation but selecting |
| `Canvas.RunStaysSound` | ui/src/store.ts:99-461 | after every run of operations and events: items under their own ids, both ends of every edge present, expanded roots present, and no dangling selection if selections were made on existing items |
| `Canvas.LiveNeverAddsNodes` | ui/src/live.ts:129-152 | no run of live events adds a node when dirty marks are on nodes |
| `Canvas.NeverGrowsIff` | ui/src/live.ts:129-152 | and that condition is exact: live events can add a node if and only if a missing key is marked dirty |
| `CanvasEvents.EdgeInsertedDecides` | ui/src/store.ts:404-413 | between visible nodes exactly that edge is there afterwards, new if it was not, and nothing else changes |
| `CanvasEvents.EdgeDeletedDecides` | ui/src/store.ts:415-424 | between visible nodes exactly that edge is gone, with a selection of it |
| `CanvasEvents.UnseenEdgeIsIgnored` | ui/src/store.ts:404-424 | an edge event with an end out of sight changes nothing |
| `CanvasEvents.NodeDeletedDecides` | ui/src/store.ts:426-438 | exactly the node, its marks and the edges with that end go |
| `CanvasEvents.NodeInsertedDecides` | ui/src/store.ts:370-381 | a node that is there takes the label, one that is not is added exactly if it was marked |
| `CanvasEvents.MarksDecide` | ui/src/store.ts:392-402 | property events mark that node if it is visible, rule events every node, and nothing else changes |
| `CanvasEvents.LiveDecides` | ui/src/live.ts:129-152 | a live edge shows only between expanded nodes; otherwise exactly its visible ends are marked |
| `CanvasEvents.EdgeFollowsItsLastEvent` | ui/src/store.ts:257-291 | after any run of events, an edge between nodes that stayed visible is on the canvas exactly when the last event to name it inserted it, or none did and it was there |
| `CanvasEvents.LiveEdgeFollowsItsLastEvent` | ui/src/live.ts:129-152 | the same of live events between nodes that stayed expanded |
| `CanvasEvents.RowsDecide` | ui/src/store.ts:108-120 | the rows of a result: which nodes are there, each with the last label a row gives it |
| `CanvasEvents.QueryDecides` | ui/src/store.ts:151-182 | a query result by its key column or by its cells; nothing but nodes changes |
| `CanvasEvents.NeighborhoodDecides` | ui/src/store.ts:108-124 | a neighbourhood: its rows, and the root there, unexpanded and unmarked |
| `CanvasEvents.NodeInfoDecides` | ui/src/store.ts:221-235 | label, properties and the cleared mark of that node alone |
| `CanvasEvents.SettersDecide` | ui/src/store.ts:184-247 | provenance, flags and properties change that item's own fields |
| `GraphStores.GraphStore.UpsertEdge` | ui/src/store.ts:359-368 | the object follows the specified step |
| `GraphStores.GraphStore.RemoveEdge` | ui/src/store.ts:448-454 | the edge and a selection of it go |
| `GraphStores.GraphStore.DropLegacyRelated` | ui/src/store.ts:441-446 | both directions of the legacy edge go |
| `GraphStores.GraphStore.MergeNeighborhoodWithEdges` | ui/src/store.ts:130-149 | the nested loops compute the specified merge |
| `GraphStores.GraphStore.FromNeighborhood` | ui/src/store.ts:108-124 | rows without a key are skipped; the root is there, not expanded and not dirty |
| `GraphStores.GraphStore.MergeQueryGraph` | ui/src/store.ts:151-182 | the harvest of a query result, cell by cell |
| `GraphStores.GraphStore.ApplyNodeInfo` | ui/src/store.ts:221-235 | label and properties of a node, and its dirty mark cleared |
| `GraphStores.GraphStore.References` | ui/src/store.ts:383-390 | true exactly when some edge has that end |
| `GraphStores.GraphStore.OnNodeDeleted` | ui/src/store.ts:426-438 | the loop over a copy of the edges removes the node, all its edges, its marks, and any selection of those, at once |
| `GraphStores.GraphStore.ApplyEvent` | ui/src/store.ts:257-291 | each event does its specified step |
| `GraphStores.GraphStore.ApplyLiveEvent` | ui/src/live.ts:129-152 | the live filter in front of it |
| `Expand.EdgeIdUnique` | ui/src/store.ts:95-97 | the id of an edge without bars is the id of no other edge |
| `Expand.ClassifyFromEdges` | ui/src/classify.ts:180-211 | the loop computes the specified classification |
| `Expand.ProvenanceIsFirstSeen` | ui/src/classify.ts:185-209 | each id at the root, and no other, carries the flag of its first mention |
| `Expand.RecordsAreIncident` | ui/src/classify.ts:180-211 | the two records hold exactly the payload's edges out of and into the root, a self-loop only as outgoing |
| `Expand.AttachEdges` | ui/src/expand.ts:119-133 | expansion on the store object is the specified expansion |
| `ExpandResult.AfterStored` | ui/src/store.ts:130-149 | an id is stored after a list of merges exactly when one stored it for good, or it was there and none removed it |
| `ExpandResult.ExpandIsExact` | ui/src/expand.ts:119-133 | for every canvas and payload: exactly which edges, nodes and selection result, each edge at the root with the flag of its first mention |
| `ExpandResult.ExpandTwice` | ui/src/expand.ts:119-133 | expanding again changes nothing, up to a selection that pointed nowhere |
| `Expand.FirstFlagIsFirst` | ui/src/classify.ts:185-209 | the flag kept for an id is that of the first payload edge at the root with it |
| `ExpandPayload.MergesThePayload` | ui/src/classify.ts:180-211 | without bars, what is merged is exactly the payload's edges at the root |
| `ExpandPayload.OnlyThePayload` | ui/src/expand.ts:119-133 | for every canvas and payload: no edge appears but payload edges at the root, none disappears but `related` ones between the ends of a typed one |
| `ExpandPayload.EntryOrder` | ui/src/classify.ts:253-266 | without bars, the types of a record are exactly those mentioned, in the order of first mention |
| `ExpandPayload.ShownIff` | ui/src/store.ts:143-145 | on the payload alone: an edge at the root is on the canvas afterwards unless it is `related` and, going out, there is a typed edge back or a typed one of a type named later, or, coming in, a typed one of a type named later |
| `ExpandPayload.RelatedIsOvertaken` | ui/src/store.ts:143-145 | the order of two payload edges decides whether the `related` one is shown |
| `ExpandPayload.BarsCollide` | ui/src/store.ts:95-97 | with bars two payload edges can share an id, and no canvas shows both |
| `MapPool.NeverTooMany` | ui/src/classify.ts:111-137 | at every moment of every schedule: the items in flight number at most `limit` (or one, if the limit is lower), and items start in order, each once |
| `MapPool.NeverStalls` | ui/src/classify.ts:111-137 | while an item has not settled some worker waits |
| `MapPool.SettlementSettles` | ui/src/classify.ts:119-133 | a settlement settles the item its worker waits on, and the worker takes the next item if there is one |
| `MapPool.ReturnedIff` | ui/src/classify.ts:111-137 | all workers have returned exactly when every item has settled |
| `MapPool.ResultsAreExact` | ui/src/classify.ts:111-137 | when all workers have returned: every item settled, values at their own index, errors exactly the rejected items in order |
| `MapPool.SortAscends` | ui/src/classify.ts:134-136 | sorting the errors keeps them and orders them strictly |
| `MapPool.Shared.TakeNext` | ui/src/classify.ts:119-124 | the shared counter hands out the specified next item |
| `MapPool.MapItems` | ui/src/classify.ts:111-137 | the workers on the shared variables, through any schedule that lets them return, resolve to those results and errors |
| `MapPool.Shared.Store` | ui/src/classify.ts:126-130 | a settled item goes to its slot or to the errors |
| `Resync.StartsOnlyWhenFree` | ui/src/live.ts:182-205 | a run starts only when none is going |
| `Resync.OwesWhatIsPending` | ui/src/live.ts:182-205 | never more runs than requests; pending exactly while a request waits for a run |
| `Resync.IdleHasServedAll` | ui/src/live.ts:182-205 | with runs that never reject, an idle gate has served every request |
| `Resync.IdleUnservedIff` | ui/src/live.ts:182-205 | in general an idle gate has left a request unserved exactly when the last run rejected with one pending, and the next request serves it |
| `Resync.RejectionLosesARequest` | ui/src/live.ts:182-205 | the concrete run |
| `Resync.RequestDecides` | ui/src/live.ts:186-192 | a request starts a run on an idle gate and is remembered by a running one |
| `Resync.ResumeDecides` | ui/src/live.ts:194-204 | after a run: again exactly if it succeeded with a request pending, otherwise idle |
| `Resync.DrainsInTwo` | ui/src/live.ts:182-205 | when runs succeed and requests stop, two runs at most bring the gate to rest, all served |
| `Resync.ResyncGate.RequestRun` | ui/src/live.ts:186-192 | the object follows the machine, and says when a run starts |
| `Resync.ResyncGate.AfterRun` | ui/src/live.ts:194-204 | so does the loop after each run, rejected or not |
| `Resync.Drive` | ui/src/live.ts:182-205 | the object through any run: its fields and the number of runs it starts are the machine's |
| `Watch.SocketOrTimer` | ui/src/watch.ts:51-141 | in every run: one socket or one timer until closed, neither afterwards |
| `Watch.DeliversOnlyAfterAck` | ui/src/watch.ts:91-110 | only frames of an acknowledged connection on an open client are delivered, one at a time |
| `Watch.ClosedIsFinal` | ui/src/watch.ts:69-78 | after `close()` no input changes anything |
| `Watch.BackoffIsExact` | ui/src/watch.ts:130-140 | the delays since the last acknowledgement are min(max, initial * 2^k) in turn, hence bounded and never shrinking |
| `WatchLink.ClientIsLink` | ui/src/watch.ts:51-141 | after any inputs the client is exactly a four-state connection told from the inputs: its socket, its timer and delay, and its deliveries, which are the frames that arrived while it was up, in order |
| `WatchLink.UpIff` | ui/src/watch.ts:91-110 | up exactly from an acknowledgement to the first input that ends the connection |
| `WatchLink.DeliversEveryFrame` | ui/src/watch.ts:91-110 | each event or lagged frame on an acknowledged connection is delivered, exactly that one |
| `WatchLink.LostIsReopened` | ui/src/watch.ts:112-140 | a lost connection is opened again when its timer fires |
| `Watch.WatchClient.UserClose` | ui/src/watch.ts:69-78 | the object follows the machine |
| `Watch.WatchClient.OnMessage` | ui/src/watch.ts:91-110 | the object follows the machine, also when the callback closes it |
| `Watch.WatchClient.OnClose` | ui/src/watch.ts:112-140 | the object follows the machine |
| `Watch.WatchClient.OnTimer` | ui/src/watch.ts:136-139 | a fired timer opens the next socket |
| `Watch.Drive` | ui/src/watch.ts:51-141 | the object through any run of frames, closings and timers: its fields and deliveries are the machine's |
| `Cypher.ScanQuoted` | ui/src/cypher.ts:80-97 | the loop finds the end of the quoted string, escapes skipped |
| `Cypher.Tokenize` | ui/src/cypher.ts:66-133 | the scanning loop computes the specified tokens |
| `Cypher.TokenizeIsLossless` | ui/src/cypher.ts:66-133 | the texts are non-empty and concatenate to the source |
| `Cypher.StretchTokenizesToItself` | ui/src/cypher.ts:66-133 | tokenizing the text of any run of adjacent tokens gives those tokens back |
| `TokenShapes.StringEndsAtQuote` | ui/src/cypher.ts:80-97 | a string ends at the first quote of its kind that no backslash escapes, or with the source |
| `TokenShapes.TokensHaveShape` | ui/src/cypher.ts:66-133 | every token has the shape of its kind: digits and dots, word characters, keywords in any case, and so on |
| `TokenShapes.ShapeGivesKind` | ui/src/cypher.ts:66-133 | the shapes exclude each other, so the text determines the kind |
| `Highlight.EscapeIsCharwise` | ui/src/cypher.ts:149-155 | the four replacements in that order are one escape per character |
| `Highlight.UnescapeEscape` | ui/src/cypher.ts:149-155 | escaping is undone by unescaping |
| `Highlight.EscapedHasNoTags` | ui/src/cypher.ts:149-155 | escaped text has no bracket and no quote |
| `Highlight.HighlightHtml` | ui/src/cypher.ts:135-147 | the loop computes the specified markup |
| `Highlight.HighlightIsReversible` | ui/src/cypher.ts:135-155 | for every source: tags out, entities back, and it is the source |
| `Grader.BuildTask` | benchmarks/agent-tasks/association/build_tasks.py:144-173 | a task is accepted if and only if truth and near-misses are disjoint, the count is right and no entry is inside another |
| `Grader.Grade` | benchmarks/agent-tasks/ground_truth.py:713-723 | recall over the truth less a quarter for each near-miss named, never below zero |
| `Grader.InsideSomeLine` | benchmarks/agent-tasks/ground_truth.py:717-718 | a one-line entry is inside a listing exactly when it is inside one of its lines |
| `Grader.ReadsListingsIff` | benchmarks/agent-tasks/association/build_tasks.py:144-173 | every listing is read right if and only if no entry is empty or inside another |
| `Grader.GradedOnWhatWasListed` | benchmarks/agent-tasks/ground_truth.py:713-723 | for every accepted task the counts are exactly those of what was listed, repeats included |
| `Grader.GradeListing` | benchmarks/agent-tasks/ground_truth.py:713-723 | when entries are distinct, the score is the number of true entries listed over the number of true entries, less a quarter for each near-miss listed, never below zero, and the extras are the near-misses listed |
| `Grader.CountsEntriesIff` | benchmarks/agent-tasks/association/build_tasks.py:144-173 | each entry of every listing counts once if and only if the entries are distinct, which acceptance does not ask |
| `Grader.RepeatedNearMiss` | benchmarks/agent-tasks/association/build_tasks.py:144-173 | an accepted task in which naming one near-miss counts five |
| `Grader.FullMarksIff` | benchmarks/agent-tasks/ground_truth.py:713-723 | full marks exactly for every true entry and no near-miss |
| `Grader.GradingIgnoresCase` | benchmarks/agent-tasks/ground_truth.py:717-718 | an answer is graded the same however it is capitalised |
| `Ascii.LowerIff` | benchmarks/agent-tasks/ground_truth.py:717-718 | lower-casing forgets the case of letters and nothing else |
| `Grader.FourNearMissesScoreNothing` | benchmarks/agent-tasks/ground_truth.py:713-723 | four near-misses cancel any recall |
| `Subsequence.FirstMissing` | benchmarks/agent-tasks/rescore.py:120-133 | none exactly when the list embeds; otherwise the first index whose prefix does not |

## Left out

- The engine itself (storage, write-ahead log, indexes, query planner, Cypher execution):
  only the transaction slot and its answers are modelled, with a commit's verdict arbitrary.
- Several handles and several transactions at once: handles do not share a slot, so one is
  modelled with every interleaving of its own calls.
- Opening a transaction, its response mapping, and a server without the routes.
- Vector similarity, embeddings and the semantic edges: they would only add a second rule of
  the same shape with floating-point matrix products.
- Floating point: scores and thresholds are reals, infinities are explicit, NaN and rounding
  (also the rounding of scores to four places) are not modelled; the great-circle distance is
  an arbitrary function.
- Random draws are arbitrary values; the vocabulary of generated values is not modelled.
- Database failures in the hand-rolled runs: every call succeeds.
- Fragmentation.Fragment: asks that list fields are lists; a string there would be dealt out
  character by character.
- ExpandPayload.ShownIff: asks for payload keys and types without a bar, because with one two
  edges can share an id; `BarsCollide` shows it. `ExpandIsExact` and `ExpandTwice` ask nothing.
- CanvasEvents.EdgeFollowsItsLastEvent: asks for an edge without a bar in its type and keys, for the
  same reason; the lemmas on single events ask nothing of the names.
- Grader.GradedOnWhatWasListed: answers are listings of entries, one to a line, entries without
  a newline; free prose around them is not modelled.
- Lower-casing outside ASCII, UTF-16 code units, and integer-like or prototype keys of
  JavaScript records.
- Sorting of provenance, of tied answers and of task values, where order does not matter to
  what is stated.
- JSON frame parsing, a socket constructor that throws, and timers other than the reconnect
  timer.
- Property values on the canvas and explanations are opaque; colour and layout views, the
  neighbour-by-neighbour legacy classification, and filling in node details are left out.
- The file and SQLite forms of the generated world, role visibility and the command lines: easy
  members beside what is here.
- File and line citations for the server state the answers each handler can give; its locking,
  scheduling and time-to-live arithmetic are an expiry that may happen at any moment.
