# AgentNativeDB: a verification model

The project models the parts of the database whose correctness spans many calls, and proves what they promise.

- `raft/` — consensus among a fixed set of nodes that store their term, vote, log, commit and applied index. `RaftTypes`, `RaftProtocol` and the five files on its invariant describe a bag of messages that may be lost, duplicated and reordered, with one step for each region the program runs under its lock, and prove safety over every run. `RaftStore` and `RaftNode` are the program's handlers as they are written, on a stored log that may have gaps. `RaftIntended` connects the two: where a handler departs from Figure 2 of Ongaro and Ousterhout's paper (2014), the protocol has the intended reading, a lemma says for which states the two agree, if and only if, and another shows a concrete state where they do not. `RaftText` puts them together: a run of the program's regions that meet these conditions is a run of the protocol, and its safety is theirs. `RaftReach`, `RaftProgress` and `RaftStall` are about what can happen: which majorities can elect a leader and hand out commands, and when a leader can never commit again.
- `sql/` — secondary indexes over order-preserving keys, the planner that uses them instead of scans and sorts, the executor that keeps them in step with the rows, full-text tokens, and the lexer, parser and printer of expressions. `SelectMeaning`, `RowOrder` and `WhereLaws` say what a SELECT returns, `RowWrites` what INSERT, UPDATE and DELETE make of a table, `PrintBrief` and `LexSpelled` how text is read, each without naming the functions that compute it. `ValueAgreement`, `PlanAgreement`, `MissingColumns`, `OrderedScanLimits`, `DescendingTies`, `DescendingPages`, `IndexLimits`, `BetweenScan`, `WordSearch` and `PrintStrings` say exactly where indexes, full-text search and printing depart from what they stand for.
- `vector/` — the layered proximity graph of the HNSW index: beam search, insertion, pruning, deletion.
- `graph/` — a property graph over a key-value adjacency index, its shortest paths and k-hop neighbours, and finding by type and name.
- `storage/`, `agent/` — the ordered key-value engine, key prefixes and their ranges, allocation of table prefixes, the LRU cache and the session store behind it.

Objects the program updates in place are classes whose methods are proved against functions on values; the theorems are about those functions and about all sequences of calls. Ids, names, strings of rows and keys are byte sequences; keys compare lexicographically. The program's departures from its own intent are kept as they are in the classes, with their exact conditions.

Assumptions, each stated as a predicate:

- Tables (`IndexUpkeep.GoodTables`, `GoodRow`): user tables with distinct prefixes and names that differ in more than case, whose primary key is the string column `id`; row ids are not empty, hold no 0x00 and do not start with 0xFF.
- Columns (`Eval.Fits`, `PlanMeaning.ColumnFits`, `LiteralFits`): every row has the indexed column, and no column name holds a dot; its values and the literal are of one type or NULL; a range literal is not NULL; numbers are finite and not −0.0; strings hold no ASCII upper case. Only the column a plan reads from an index has to satisfy this; `PlanAgreement`, `ValueAgreement` and `MissingColumns.OrderedRowsIff` keep of it only that no column name holds a dot, and tell what happens without the rest.
- Text (`WordSearch.SearchesWords`): the index's terms are the tokenizer's, folding lowers each character, and the lower case of a letter is a letter that has no other lower case.
- Graphs (`Adjacency.GoodEdge`, `GraphKeys.IsNodeId`): ids hold no 0x00, node ids do not start with `edge:`, and edge ids are fresh when added.
- Raft: the peer set does not change, and no node is named by the empty vote.
- Vectors: a deleted id is not inserted again.

## Model

| member | source | states |
|---|---|---|
| `RaftSafety.StateMachineSafety` | internal/raft/run.go:372-435 | In any run, whatever two nodes have handed to Apply at any two moments agrees at every index both have reached, and the entry at position x carries index x + 1: 1, 2, 3, … in this order |
| `RaftSafety.HandedOnce` | internal/raft/run.go:420-435 | What a node has handed to Apply is never taken back and grows only at its end, so each index is handed out once |
| `RaftSafety.CommittedStaysInLeaders` | internal/raft/run.go:372-417 | Leader completeness: what a node regards as committed in some term is a prefix of the log of every leader of that or a later term, at any later moment; rests on the rule that a newly committed entry carries the current term |
| `RaftSafety.LogMatching` | internal/raft/transport.go:314-371 | If two logs, of any nodes at any two moments, hold an entry with one index and term, they agree on every index up to it, and neither has a gap there |
| `RaftSafety.ElectionSafety` | internal/raft/run.go:139-219 | Over a whole run at most one node is ever leader in a term |
| `RaftSafety.VotesOnce` | internal/raft/transport.go:197-278 | Over a whole run a node votes for at most one candidate in a term |
| `RaftSafety.TermsGrow` | internal/raft/run.go:264-278 | A node’s term never decreases along a run |
| `RaftSafety.RunInv` | internal/raft/transport.go:197-397 | The invariant (votes, elections, logs, messages in flight, acknowledgements, commits) holds in every state of every run |
| `RaftSafety.StepInv` | internal/raft/run.go:54-499 | Every step (timeout, standing for election, vote request and reply, taking office, losing, append, send, receive, reply, restart) keeps the invariant, and terms and histories only grow |
| `RaftInvariant.LeaderCompleteness` | internal/raft/run.go:372-417 | What a majority acknowledged in a term is in the log of every leader of a later term |
| `RaftInvariant.Matching` | internal/raft/transport.go:314-371 | In logs built by appends that passed the consistency check, one index and term fixes everything before it |
| `RaftIntended.VoteIsIntended` | internal/raft/transport.go:197-278 | HandleRequestVote as written is the protocol’s vote step for every state and request: pre-votes change nothing, terms are adopted, one vote per term, only to an up-to-date candidate |
| `RaftIntended.VoteGrantedIff` | internal/raft/transport.go:197-278 | A vote or pre-vote is granted exactly when the request is not of an older term, its last term and index are lexicographically at least those of the last stored entry, and, for a vote, the node has no other vote in that term; a pre-vote or an old request changes nothing, a vote sets term, vote and role and nothing else |
| `RaftIntended.VoteReplyIsIntendedIff` | internal/raft/run.go:107-116 | Storing a reply’s term without looking at the present one does what the protocol asks exactly when the reply is no news to a node at least that far, is newer than the node, or meets a follower of its term without a vote |
| `RaftText.TermGoesBackIff` | internal/raft/run.go:107-116 | In whatever state the cluster is, the only region of the program that takes a node’s term back is a vote or pre-vote reply whose term is news to the election that asked and older than the node’s |
| `RaftIntended.VotesAgainIff` | internal/raft/run.go:174-183 | After such a reply a node can grant a second candidate its vote in a term it has voted in exactly when the reply is newer than the term of its request and not newer than the node |
| `RaftIntended.LateReplyVotesTwice` | internal/raft/run.go:174-183 | Where it fails: a late reply lets a node vote for two candidates in term 5 |
| `RaftIntended.TakeOfficeIsIntendedIff` | internal/raft/run.go:195-219 | becomeLeader does what the protocol asks exactly when the node leads already or is still a candidate in the term of the votes |
| `RaftIntended.LateVotesElectFollower` | internal/raft/run.go:195-219 | Where it fails: votes of term 4 make a node leader of term 5, in which it voted for somebody else |
| `RaftIntended.NoOpIsIntendedIff` | internal/raft/run.go:211-261 | Between the two locked regions of becomeLeader the lock is free: the second does what the protocol asks exactly when the node still leads and its log did not grow, or no longer leads and has that very NoOp already |
| `RaftIntended.NoOpOverwrites` | internal/raft/run.go:234-249 | Where it fails: a command stored between the two locked regions is overwritten by the NoOp of its own leader |
| `RaftIntended.NoOpSplitsTerm` | internal/raft/run.go:232-249 | Where it fails: a leader of term 4 votes in term 5 between the two regions and stores its NoOp in term 5, at an index where the leader of term 5 holds a command |
| `RaftIntended.ProposalIsIntendedIff` | internal/raft/run.go:460-499 | A proposal is appended as the protocol asks exactly when the node is leader at the moment it takes the lock |
| `RaftIntended.FollowerAppends` | internal/raft/run.go:460-475 | Where it fails: a node that stepped down meanwhile appends a command in a term it does not lead |
| `RaftIntended.AppendIsIntendedIff` | internal/raft/transport.go:281-397 | HandleAppendEntries leaves the state and gives the answer the protocol asks for exactly when it refuses, or no entry conflicts with the log and the commit index does not reach past what the request covers |
| `RaftIntended.ConflictLosesEntry` | internal/raft/transport.go:354-370 | With a conflict, the first conflicting index is always missing from the store afterwards |
| `RaftIntended.ConflictReportsSuccess` | internal/raft/transport.go:354-370 | Where it fails: a node reports success for an entry it has just thrown away |
| `RaftIntended.HeartbeatCommitsTooMuch` | internal/raft/transport.go:374-381 | Where it fails: a heartbeat that covers nothing commits and hands out an entry its sender never saw |
| `RaftIntended.CommitUpToIsIntendedIff` | internal/raft/transport.go:374-381 | Bounding the commit index by the own last index instead of the covered one is right exactly when the leader’s commit index is not past either, or nothing stored lies between |
| `RaftIntended.AdvanceIsIntended` | internal/raft/run.go:372-417 | advanceCommitIndex as written counts holders and moves the commit index as the protocol does, entry by entry of the current term |
| `RaftIntended.ReplyIsIntendedIff` | internal/raft/run.go:302-369 | A reply to AppendEntries is handled as the protocol asks exactly when it steps the node down, meets no leader, belongs to the current leadership, or moves nothing |
| `RaftIntended.LateSuccessCommits` | internal/raft/run.go:340-349 | Where it fails: a success from term 1 commits, in term 2 of the same leader, an entry the peer never received |
| `RaftIntended.RequestIsIntendedIff` | internal/raft/run.go:280-335 | The request built is one the protocol may send exactly when the node leads, the term read before taking the lock is its own, and the commit index read then is not past its own |
| `RaftIntended.RequestIsBatch` | internal/raft/run.go:302-335 | Its entries are the log’s behind the next index, cut to a batch that is empty only at the end of the log |
| `RaftIntended.OldTermSent` | internal/raft/run.go:302-334 | Where it fails: a request of term 1 carries an entry of term 2 |
| `RaftIntended.FollowerSends` | internal/raft/run.go:280-299 | Where it fails: a leader of term 1 that votes in term 2 after its role was looked at sends a request of term 2, which the protocol does not send |
| `RaftIntended.CollectIsIntended` | internal/raft/run.go:420-435 | collectApplyOps hands out the committed entries not handed out yet, in order, like the protocol |
| `RaftText.TextRunIsRun` | internal/raft/run.go:54-499 | Any run of the program’s own regions in which what was read before taking a lock still holds, and no request to append meets a conflict or commits past what it covers, is a run of the protocol, state by state |
| `RaftText.RegionFollows` | internal/raft/run.go:54-499 | One such region, in any state the invariant allows, is a step of the protocol, or finds its node in office already |
| `RaftText.TextStateMachineSafety` | internal/raft/run.go:420-435 | So in such a run of the program whatever two nodes have handed to Apply agrees at every index both have reached, numbered 1, 2, 3, … |
| `RaftText.TextHandedOnce` | internal/raft/run.go:420-435 | and what a node has handed to Apply grows only at its end |
| `RaftText.TextElectionSafety` | internal/raft/run.go:139-219 | and at most one node is ever leader in a term |
| `RaftText.TextLogMatching` | internal/raft/transport.go:314-371 | and two stores with an entry of one index and term hold the same entries, without a gap, up to it |
| `RaftText.AdvanceCommitsReplicated` | internal/raft/run.go:372-417 | advanceCommitIndex moves over indexes one by one while their entry is of the current term and on a majority of the nodes, and stops at the first that is not |
| `RaftReach.MajorityElects` | internal/raft/run.go:54-219 | From any state, a majority whose logs are not ahead of one of its nodes’ can make that node leader of a new term: all pre-votes, votes and steps up to there exist, and only the majority’s votes change |
| `RaftProgress.MajorityMakesProgress` | internal/raft/run.go:54-499 | Any run can go on so that such a node, if it knows all its entries to be committed, leads and every node of the majority hands out its log, its NoOp and any given command, without a step of the others |
| `RaftProgress.FreshClusterHandsOut` | internal/raft/run.go:54-499 | From the start of any cluster, any majority can elect any of its nodes, and all of it hand out the NoOp and any command |
| `RaftProgress.LeaderDrives` | internal/raft/run.go:302-417 | A leader with nothing but own entries left to commit can bring any majority of no newer term to hand out its whole log and a new command, backing off and resending as far as needed |
| `RaftStall.LeaderCommitsIff` | internal/raft/run.go:371-413 | A leader that a majority can hear commits more in some longer run exactly when its next entry to commit is of its own term: the NoOp of a new leader does not commit entries of older terms, which becomeLeader appends it for |
| `RaftStall.LeaderWaits` | internal/raft/run.go:371-413 | Where it is not, the leader commits nothing for as long as it leads, whatever is replicated |
| `RaftStall.StallLasts` | internal/raft/run.go:371-413 | A cluster whose majority holds an uncommitted entry of an older term in this way never again hands out anything from there on |
| `RaftStall.ClusterCanStall` | internal/raft/run.go:232-261 | Every cluster of several nodes can come, from its start, into a state in which a majority has stored the leader’s entry and no node will ever hand out anything |
| `RaftNode.Node.HandleRequestVote` | internal/raft/transport.go:197-278 | The handler, updating the node’s fields in place, gives the state and answer of HandleVote, and grants exactly when the term is not older, no stored last entry is ahead of the candidate’s, and, for a vote, no other vote stands in that term |
| `RaftNode.Node.HandleAppendEntries` | internal/raft/transport.go:281-397 | The handler, looping over entries and cutting the stored log in place, gives the state and answer of HandleAppend; it succeeds exactly when the term is not older and the previous entry is stored with the stated term, a refusal leaves log and commit index alone, and reports where the leader should go back to: behind a short log, or to the start of the run of a wrong term |
| `RaftNode.Node.ConflictIndex` | internal/raft/transport.go:329-340 | The conflict index it reports is the start of the run of entries of one term that ends at the given index |
| `RaftNode.Node.StoreNewEntries` | internal/raft/transport.go:350-371 | The loop over the request’s entries leaves the store that StoreEntries defines |
| `RaftNode.Node.StartElection` | internal/raft/run.go:139-149 | Raises the term, votes for itself, becomes candidate, and nothing else |
| `RaftNode.Node.LoseElection` | internal/raft/run.go:201-206 | A candidate becomes a follower again; term and vote stay |
| `RaftIntended.ElectionIsIntended` | internal/raft/run.go:139-206 | Standing for election, and giving up without a majority, are the protocol’s steps |
| `RaftNode.Node.HandleVoteReply` | internal/raft/run.go:107-116 | The term update of both kinds of vote reply, as written |
| `RaftNode.Node.StepDown` | internal/raft/run.go:264-278 | Adopts only a newer term, and always ends as follower |
| `RaftNode.Node.BecomeLeader` | internal/raft/run.go:211-261 | Role leader; for every other peer, set in place in a loop, the next index is one past the last entry and the match index 0; term, vote and log stay |
| `RaftNode.Node.HandleProposal` | internal/raft/run.go:460-499 | Stores the command under the lock at the next index in the node’s term, and commits it alone when there is no other peer |
| `RaftNode.Node.AdvanceCommitIndex` | internal/raft/run.go:372-417 | The two nested loops leave the commit index and the applied entries of the specification |
| `RaftNode.Node.CountHolders` | internal/raft/run.go:385-394 | Counts the node itself and every peer whose match index reaches the entry |
| `RaftNode.Node.CollectApplyOps` | internal/raft/run.go:420-435 | Hands out the entries from the applied index on, one after the other, up to the commit index or a gap, and what it returns is what was added |
| `RaftNode.Node.RequestFor` | internal/raft/run.go:302-334 | The request names the entry before the peer’s next index with its term, and holds the stored entries from there on, at least one if there is any |
| `RaftNode.Node.HandleAppendReply` | internal/raft/run.go:339-369 | A newer term makes it a follower; a success of the term asked with sets the peer’s next and match index behind the entries sent, a refusal takes the next index one back; any other reply changes nothing |
| `RaftNode.Node.LogEntries` | internal/raft/storage.go:237-268 | Reads a batch that stops at the first gap or at the size limit |
| `RaftNode.Node.DeleteRange` | internal/raft/storage.go:183-192 | Removes exactly the entries of the closed range of indexes |
| `RaftStore.LastIndex` | internal/raft/storage.go:215-234 | The last index is in the store and no stored index is larger |
| `PlanMeaning.WhereMeaning` | internal/query/sql/planner.go:488-583 | For every WHERE and database with exact indexes, whatever conjunct an index serves, at any position, swapped or not, the plan with indexes returns the same multiset of rows as the plan without |
| `PlanMeaning.SourceSelects` | internal/query/sql/executor.go:1483-1574 | Index scan and remaining filter, or scan and filter, yield each id once, and exactly the ids whose row passes WHERE |
| `WhereLaws.OrIsUnion` | internal/query/sql/executor.go:1024-1064 | For every table, index catalog and expressions l and r: `l OR r` chooses exactly the ids chosen under l or under r, each once |
| `WhereLaws.AndIsIntersection` | internal/query/sql/executor.go:1024-1064 | `l AND r` chooses exactly those chosen under both |
| `WhereLaws.NotIsComplement` | internal/query/sql/executor.go:1066-1080 | `NOT e` chooses exactly the other rows |
| `WhereLaws.TruthChooses` | internal/query/sql/executor.go:1229-1250 | A WHERE chooses the rows on which it is none of NULL, false, 0, 0.0, −0.0 and the empty string |
| `WhereLaws.ComparisonsPartition` | internal/query/sql/executor.go:1127-1192 | Every row is chosen by exactly one of x < y, x = y and x > y; >=, != and <= choose the others |
| `WhereLaws.ComparisonsFlip` | internal/query/sql/executor.go:1127-1192 | x > y chooses what y < x chooses, and x = y what y = x does |
| `WhereLaws.ArithmeticChooses` | internal/query/sql/executor.go:1024-1064 | `x op y = k` over integers up to 2^53 chooses exactly the rows on which sum, difference, product, exact quotient or remainder is k; none where the divisor is zero |
| `WhereLaws.MinusChooses` | internal/query/sql/executor.go:1066-1080 | `-x = k` chooses the rows on which x is −k |
| `BetweenScan.BetweenTakes` | internal/query/sql/planner.go:566-583 | BETWEEN through an index takes exactly the rows that have the column with a value not below the one end and not above the other and that pass the other conjuncts; an end that is NULL or no literal is none |
| `BetweenScan.BetweenIsBothComparisons` | internal/query/sql/planner.go:566-583 | Where column and ends are of one type that is low <= x AND x <= high |
| `BetweenScan.ScanTakesNone` | internal/query/sql/executor.go:981-1017 | Without an index a WHERE one of whose conjuncts is BETWEEN, LIKE, IS NULL or MATCH takes no row at all |
| `BetweenScan.BetweenAgreesIff` | internal/query/sql/executor.go:981-1017 | So a BETWEEN gives the same rows with and without an index exactly when no row that passes the other conjuncts lies between the ends |
| `SelectMeaning.SelectReturns` | internal/query/sql/planner.go:185-306 | A SELECT on one table, planned without indexes, returns the page, from the offset on and as long as the limit, of an arrangement in the order of all keys of the result rows made of exactly the rows that pass WHERE, in id order; LIMIT 0 limits nothing |
| `SelectMeaning.ProjectIsWritten` | internal/query/sql/executor.go:211-244 | A projected row has, under each name, the value of the last column of that name on the row, and no other column |
| `SelectMeaning.AggregatedIsGrouped` | internal/query/sql/executor.go:379-432 | One row for each group key, in the order the keys first turn up, of exactly the rows with that key in their order: aggregates of them, else values on the first, then the columns grouped by; those that pass HAVING; one row, whatever HAVING asks, without GROUP BY |
| `SelectMeaning.UnprojectedOrderIsLost` | internal/query/sql/executor.go:248-271 | Rows are sorted after projection: ORDER BY columns that are not among the result columns changes nothing |
| `SelectMeaning.OrderSurvivesIff` | internal/query/sql/executor.go:248-271 | Result rows come in the order of the stored rows’ keys exactly when projection turns no pair of rows round |
| `RowOrder.RowLessIff` | internal/query/sql/executor.go:254-268 | The comparison of the sort is lexicographic order over all keys: the first key that tells two rows apart decides |
| `RowOrder.SortsIff` | internal/query/sql/executor.go:248-271 | A sequence is the result of the sort exactly when it is the rows, each once, in that order, with ties as they came |
| `RowOrder.FittingKeyOrders` | internal/query/sql/executor.go:1127-1192 | Keys of one type are ordered, as the sort needs it |
| `RowOrder.MixedKeysCycle` | internal/query/sql/executor.go:1127-1192 | Where it fails: 10 < "1a" < "9" < 10, so a column of numbers and strings has no order to sort by |
| `PlanAgreement.PlansAgreeIff` | internal/query/sql/executor.go:1483-1574 | With no assumption on values, literal, missing columns or the spelling of the indexed one: the plans with and without the index take the same rows exactly when, for each row the other conjuncts leave to decide, the scan’s answer is that of the scanned span, or no for a row without the index’s column |
| `PlanAgreement.SameColumnIff` | internal/query/sql/index/ops.go:46-65 | For an index on the column compared that is: values ordered as the operator needs it, and for a row that lacks the column an operator and literal that NULL, below everything, does not pass |
| `PlanAgreement.SelectAllAgreesIff` | internal/query/sql/executor.go:1483-1574 | Of SELECT *, they return the same rows exactly then |
| `PlanAgreement.NullRangeAgreesIff` | internal/query/sql/planner.go:502-583 | A range with NULL, either way round, reads the whole index: it is right exactly when the rows left to decide that have the index’s column are all for >=, those whose column is not NULL for >, those where it is for <=, none for < |
| `PlanAgreement.AlikeAgrees` | internal/query/sql/planner.go:488-583 | Where every value of the column is ordered alike with the literal, and NULL does not pass for a row that lacks it, every operator may use the index |
| `MissingColumns.MissingIsLost` | internal/query/sql/index/ops.go:46-65 | Where it fails: a row without age has no entry, and is lost under age < 5 and age >= NULL |
| `MissingColumns.OtherCaseIsLost` | internal/query/sql/index/ops.go:46-65 | Where it fails: an index on NAME serves name = x, but a row with a name has no entry in it |
| `MissingColumns.OrderedRowsIff` | internal/query/sql/planner.go:247-286 | ORDER BY over an index, in either direction and with no assumption on values, returns all rows exactly when every row has the index’s column |
| `PlanMeaning.ConjunctIsSpan` | internal/query/sql/planner.go:502-583 | A served conjunct is true of a row exactly when the scanned span holds the row’s value, also for literal op column |
| `PlanMeaning.TestIsSpan` | internal/query/sql/planner.go:676-688 | Comparing a fitting value with the literal, in either order, is membership in the span built from the flipped or unflipped operator |
| `PlanMeaning.WithoutOne` | internal/query/sql/planner.go:623-640 | Taking one conjunct out of a conjunction, at any position, and rejoining the rest loses nothing |
| `PlanMeaning.ColumnIsRead` | internal/query/sql/executor.go:981-1017 | A column is read from a row whatever its qualifier and alias |
| `SortElimination.AscendingIsExact` | internal/query/sql/planner.go:247-286 | ORDER BY the indexed column ascending: the plan that skips the sort returns the identical row sequence as the stable sort, with or without WHERE, LIMIT and OFFSET |
| `DescendingTies.PageIsSorted` | internal/query/sql/planner.go:247-286 | Descending, with any LIMIT and OFFSET: the page is cut from rows in descending order that are the rows sorting returns |
| `SortElimination.BackwardsIsSorted` | internal/query/sql/executor.go:275-284 | Index order read backwards is sorted in descending order |
| `DescendingTies.PageIsReversed` | internal/query/sql/planner.go:716-746 | Descending, with any LIMIT and OFFSET: the page is cut from the reverse of what the ascending stable sort gives, ties by descending id |
| `DescendingTies.DescendingIsExactIff` | internal/query/sql/planner.go:716-746 | Descending: the very sequence of the stable sort exactly when no two rows that pass WHERE have the same value |
| `DescendingTies.UntiedPages` | internal/query/sql/planner.go:716-746 | Then LIMIT and OFFSET cut both plans alike, too |
| `DescendingPages.PagesAgreeIff` | internal/query/sql/planner.go:716-746 | Descending with any LIMIT and OFFSET: the index read backwards gives the page of the stable sort exactly when each row on the page has as many rows of its value with smaller ids as with larger ones |
| `DescendingPages.SamePlaceIff` | internal/query/sql/executor.go:248-271 | Both orders have an id in the same place exactly when it is in the middle of its ties |
| `DescendingPages.TiedPairSwaps` | internal/query/sql/planner.go:716-746 | Two rows of one value: LIMIT 1 returns the one with the larger id through the index and the other one from the sort |
| `DescendingTies.StableSortIsDown` | internal/query/sql/executor.go:248-271 | The stable sort in descending order, on ids: by value downwards, equal values by id upwards |
| `SortElimination.StableSortIs` | internal/query/sql/executor.go:248-271 | Stable sorting of rows by the column is the stable sort of their ids by index value |
| `SortElimination.OneIndexOrder` | internal/query/sql/executor.go:288-352 | There is only one way to put a set of ids in index order |
| `SortElimination.ReverseBelow` | internal/query/sql/planner.go:730-746 | A Reverse put right above the index scan reverses what comes out of filter and projection |
| `IndexUpkeep.AlwaysConsistent` | internal/query/sql/executor.go:604-765 | After any sequence of INSERT, id-keeping UPDATE, DELETE, CREATE INDEX with backfill and DROP INDEX, the keys under each live index prefix are exactly the entry keys of the stored rows, no other index key exists, and unique indexes are unique |
| `IndexUpkeep.WriteKeeps` | internal/query/sql/index/ops.go:46-122 | Each single write keeps every live index the exact image of its table and unique indexes unique |
| `IndexUpkeep.ReplaceInv` | internal/query/sql/index/ops.go:87-97 | Replacing, adding or removing one row together with its entries keeps every index exact |
| `IndexUpkeep.PutThenDeleteLosesEntry` | internal/query/sql/index/ops.go:87-97 | Why deletes come first: puts before deletes lose the entry of every unchanged value, deletes before puts keep it |
| `IndexUpkeep.DroppedIsEmpty` | internal/query/sql/index/manager.go:112-149 | Under the prefix of a name that is not live no key is left |
| `IndexUpkeep.ReCreateKeepsIff` | internal/query/sql/executor.go:1575-1634 | CREATE INDEX IF NOT EXISTS on a used name backfills the old index from the table named now; the indexes stay exact exactly when the statement is refused, the rows clash and the old index is dropped, the tables are the same, or every entry so written is one of the index’s own |
| `IndexUpkeep.OtherTableBreaks` | internal/query/sql/executor.go:1575-1634 | Where it fails: an index on an empty table, named again for a table with a row that has the column |
| `IndexUpkeep.AcceptedIsDistinct` | internal/query/sql/index/ops.go:124-141 | A row that passes the uniqueness check has no equal in the index but the row it replaces |
| `IndexUpkeep.ClearInv` | internal/query/sql/index/manager.go:112-149 | Forgetting an index and clearing its prefix leaves every other index exact |
| `IndexUpkeep.BackfillInv` | internal/query/sql/index/ops.go:100-122 | Filling a new index from the table’s rows makes it exact and leaves the others so |
| `IndexLookup.RangeAnswers` | internal/query/sql/index/ops.go:188-229 | A range lookup returns exactly the rows whose value is in the open, half-open or closed range, in order of value, then row id |
| `IndexLookup.EqualAnswers` | internal/query/sql/index/ops.go:180-184 | A lookup by value returns exactly the rows with that value, in row-id order, when no string of the column holds 0x00 |
| `IndexLookup.EqualFinds` | internal/query/sql/index/ops.go:180-184 | With 0x00 in strings it still returns every such row, and anything else it returns starts with 0xFF and is no row id |
| `IndexLookup.EqualInOrder` | internal/query/sql/index/ops.go:180-184 | Of the ids it returns, those of rows come in index order |
| `IndexLookup.EntryHasPrefix` | internal/query/sql/index/ops.go:279-294 | Which entries the prefix of a value meets, although one encoded string may be a prefix of another, and what is read as row id |
| `IndexLookup.EntryInRange` | internal/query/sql/index/ops.go:188-229 | An entry key is between the two bounds exactly when its value is in the range |
| `IndexLookup.ReadsInOrder` | internal/query/sql/index/ops.go:279-318 | Keys in key order give back their row ids, distinct, in index order |
| `Encoding.EntryOrder` | internal/query/sql/index/encoding.go:31-99 | Entry keys compare lexicographically exactly as type and value, then row id |
| `Encoding.EntryAgainstBound` | internal/query/sql/index/ops.go:188-229 | An entry lies before the lower bound of a value exactly when its value is less, and before the upper bound exactly when it is not greater |
| `Encoding.TailAgainstBound` | internal/query/sql/index/encoding.go:83-99 | How an escaped string and its terminator compare with the bounds built from another, whatever follows |
| `Encoding.NumberOrder` | internal/query/sql/index/encoding.go:59-79 | For finite numbers other than −0.0 index order is numeric order, and equal keys are equal numbers |
| `Encoding.StringOrder` | internal/query/sql/index/encoding.go:83-99 | For strings without upper case index order is byte order, and equal keys are equal strings |
| `Encoding.Encode` | internal/query/sql/index/encoding.go:31-56 | The encoder is EncodeValue, for each type its tag and escaped bytes |
| `Encoding.EncodeNumber` | internal/query/sql/index/encoding.go:59-79 | The loop writes the eight bytes of the order bits, most significant first, escaped |
| `Encoding.EncodeString` | internal/query/sql/index/encoding.go:83-99 | The loop writes the folded, escaped bytes of the string |
| `Floats.OrderBitsOrder` | internal/query/sql/index/encoding.go:59-79 | Flipping the sign bit of a non-negative and all bits of a negative binary64 number (section 3.4 of IEEE 754-2019) orders the bits as the numbers |
| `Floats.OrderBitsOrderIff` | internal/query/sql/index/encoding.go:59-79 | For any two numbers: the bits keep the strict order exactly when negative zero does not stand against a number it would have to be equal to or above, and keep equality exactly when the two are not the two zeros |
| `Floats.NegativeZeroSortsFirst` | internal/query/sql/index/encoding.go:59-79 | Where it fails: −0.0 equals 0.0 but comes strictly before every other number |
| `IndexKeys.EntryTells` | internal/query/sql/index/manager.go:197-225 | An entry key determines the index, its kind and the row id |
| `IndexKeys.DecodeRowID` | internal/query/sql/index/ops.go:305-318 | The scan for the separator reads what DecodeRowId defines |
| `IndexLimits.RefusedIff` | internal/query/sql/index/ops.go:124-141 | A unique index refuses a value exactly when another row has an equal one, or some string continues it with 0x00 — the second a refusal without a duplicate |
| `IndexLimits.ContinuationIsFound` | internal/query/sql/index/ops.go:279-318 | A lookup meets every value that continues the one asked for with 0x00, and reads a piece of it as a row id |
| `IndexLimits.UpperFindsLower` | internal/query/sql/index/encoding.go:83-99 | Where equality fails: the index finds "a" for "A", which comparison tells apart |
| `IndexLimits.LowerSortsFirst` | internal/query/sql/index/encoding.go:83-99 | Where order fails: "a" < "B" is false of the scan and true of the index, and ORDER BY puts "B" first, the index "a" |
| `IndexLimits.NegativeZeroIsBelowZero` | internal/query/sql/index/encoding.go:59-79 | Where numbers fail: a stored −0.0 equals 0 for the scan; the index misses it under 0 and finds it below 0 |
| `IndexLimits.TextOfNumber` | internal/query/sql/executor.go:1127-1192 | Where types mix: the text 12 is below a number above 12 for the scan, above it in the index |
| `IndexLimits.OrderedScanReplaces` | internal/query/sql/planner.go:247-286 | One ORDER BY column with a BTREE index and no WHERE: joins, grouping and projection below the sort vanish from the plan |
| `IndexLimits.ReplacedPlanIsSelectAll` | internal/query/sql/planner.go:265-277 | Such a statement is planned as SELECT * from its first table |
| `OrderedScanLimits.ProjectedOrderIff` | internal/query/sql/planner.go:265-277 | A projection ordered by an index returns the rows asked for exactly when projecting changes no row of the table |
| `OrderedScanLimits.GroupedOrderIff` | internal/query/sql/planner.go:265-277 | A grouping ordered by an index returns the rows asked for exactly when no two rows share a group and each comes out of its group unchanged |
| `OrderedScanLimits.AggregatedOrderIff` | internal/query/sql/planner.go:265-277 | Aggregates of the whole table ordered by an index: the result is the one asked for exactly when the table has a single row and its aggregates are that row |
| `OrderedScanLimits.CountedWrong` | internal/query/sql/planner.go:265-277 | Where it fails: SELECT COUNT(*) FROM t ORDER BY an indexed column, on every table |
| `OrderedScanLimits.NamesOrderedWrong` | internal/query/sql/planner.go:265-277 | Where it fails: SELECT name FROM t ORDER BY name, on every table that has a row |
| `OrderedScanLimits.NamesGroupedWrong` | internal/query/sql/planner.go:265-277 | Where it fails: SELECT name FROM t GROUP BY name ORDER BY name, on every table that has a row |
| `OrderedScanLimits.SwapGoesUnnoticed` | internal/query/sql/executor.go:211-244 | Why the result column id must be the column id: swapping two columns may change every row and not the result |
| `Eval.CompareIsIndexOrder` | internal/query/sql/executor.go:1127-1192 | On the values of one column compareValues is index order: less, equal and greater |
| `ValueAgreement.AlikeIff` | internal/query/sql/executor.go:1127-1192 | For any two values, of one type or two, NaN and NULL included: comparison puts them as the index does exactly under KeepsOrder, which looks at zeros, at the first bytes that differ in case, and at what a string reads as |
| `ValueAgreement.EveryVerdictIff` | internal/query/sql/planner.go:502-583 | For a value and a literal that is not NULL: =, <, <=, > and >=, either way round, give the index’s answer, all of them, exactly when comparison orders the two as the index does |
| `ValueAgreement.VerdictIs` | internal/query/sql/planner.go:676-688 | What each single operator needs of the order |
| `ValueAgreement.StringsAlikeIff` | internal/query/sql/index/encoding.go:83-99 | On two strings: exactly when folding case keeps both orders, read off the first byte that differs and, where it differs in case only, off the folded rests |
| `ValueAgreement.FoldedLessIff` | internal/query/sql/index/encoding.go:83-99 | Folding keeps the answer to s < t exactly when neither of the first different bytes lies between a capital and its lower case letter, or, when they differ in case only, the folded rests decide alike |
| `ValueAgreement.NumbersAlikeIff` | internal/query/sql/index/encoding.go:59-79 | On two numbers: exactly when negative zero meets only itself or positive numbers; a NaN only its own bits |
| `ValueAgreement.NullVerdictIff` | internal/query/sql/index/ops.go:188-229 | A range test with NULL reads the whole index, which is right for >= always, for > of values that are not NULL, for <= of NULL, for < never |
| `Planner.PlanSelect` | internal/query/sql/planner.go:185-306 | The planner, reassigning its node step by step, returns PlanOf |
| `Planner.TryIndex` | internal/query/sql/planner.go:488-500 | Serves the first conjunct an index can, and rejoins the others in order |
| `Planner.FirstServed` | internal/query/sql/planner.go:488-500 | The conjunct served is the first that an index matches |
| `Planner.JoinConjuncts` | internal/query/sql/planner.go:631-640 | The loop rejoins conjuncts to the left |
| `Planner.PickFirst` | internal/query/sql/planner.go:587-620 | Picks the first index of an allowed kind |
| `Executor.Executor.Execute` | internal/query/sql/executor.go:89-136 | Running a plan, node by node in loops over rows, returns the rows that Exec defines |
| `Executor.Executor.ExecuteScan` | internal/query/sql/executor.go:140-185 | Reads the table’s rows in key order under the alias |
| `Executor.Executor.ExecuteProject` | internal/query/sql/executor.go:211-244 | Projects each row |
| `Executor.Executor.ExecuteAggregate` | internal/query/sql/executor.go:379-432 | Groups rows by their group key as they turn up, makes one row of each, and keeps those that pass HAVING |
| `Executor.Executor.Keep` | internal/query/sql/executor.go:199-207 | Keeps the rows that pass, in order; what passes is said by the rows of WhereLaws |
| `Executor.Executor.FetchRows` | internal/query/sql/executor.go:288-352 | Reads the row of each id in turn, skipping ids without one |
| `Executor.ReverseInPlace` | internal/query/sql/executor.go:275-284 | Swapping from both ends reverses the array |
| `Executor.Executor.ExecuteInsert` | internal/query/sql/executor.go:604-676 | The rows become INSERTs in turn, each stored under its own or the generated id with its values; the first one refused stops the statement with the earlier ones kept and itself without trace; other tables stay, and the indexes stay exact |
| `Executor.Executor.ExecuteUpdate` | internal/query/sql/executor.go:680-765 | One UPDATE for each row that passes WHERE, in key order: the stored row is reached through one intermediate row for each assignment of SET, which differs from the one before exactly in the column set, whose value is the expression on the row before; every other row and table stays; the first refused one stops it with its row and entries unchanged; the indexes stay exact |
| `RowWrites.AssignedInTurn` | internal/query/sql/executor.go:700-712 | There are such intermediate rows: r0 the old row, r(i+1) differing from r(i) exactly in column i of SET, whose value is its expression on r(i), the last one the row that is stored |
| `RowWrites.StoredCompares` | internal/query/sql/executor.go:700-765 | A stored row has the row’s columns, with values that compare with any value, and are indexed, as those written |
| `Executor.Executor.ExecuteDelete` | internal/query/sql/executor.go:906-937 | Deletes exactly the rows that pass WHERE, with their entries; other rows and tables stay |
| `Executor.Executor.ExecuteCreateIndex` | internal/query/sql/executor.go:1575-1634 | Creates and fills the index, or leaves none behind when the rows clash; succeeds exactly when the table is there, the index is allowed, its name is new or IF NOT EXISTS is said, and the rows do not clash |
| `Executor.Executor.ExecuteDropIndex` | internal/query/sql/executor.go:1637-1642 | Forgets the index and clears its entries |
| `IndexManager.Manager.Create` | internal/query/sql/index/manager.go:81-109 | Refuses missing parts and a used name, otherwise records the index |
| `IndexManager.Manager.Drop` | internal/query/sql/index/manager.go:112-149 | Forgets the index and deletes exactly the keys under its prefix |
| `IndexManager.Manager.FindByColumn` | internal/query/sql/index/manager.go:184-194 | Lists exactly the live indexes on the column, ignoring ASCII case |
| `IndexManager.Manager.ListByTable` | internal/query/sql/index/manager.go:171-181 | Lists exactly the live indexes on the table, ignoring ASCII case |
| `IndexManager.Manager.InsertRowOps` | internal/query/sql/index/ops.go:46-65 | Fails exactly when a unique index rejects the row, otherwise puts exactly the row’s keys |
| `IndexManager.Manager.DeleteRowOps` | internal/query/sql/index/ops.go:68-84 | Deletes exactly the row’s keys |
| `IndexManager.Manager.UpdateRowOps` | internal/query/sql/index/ops.go:87-97 | Deletes the old row’s keys, then puts the new row’s, unless a unique index rejects it |
| `IndexManager.Manager.RebuildFromRows` | internal/query/sql/index/ops.go:100-122 | Writes the entries of all rows, or nothing on a clash within the batch |
| `IndexManager.Manager.ValidateUnique` | internal/query/sql/index/ops.go:124-141 | Accepts exactly when the unique index shows no other row under the value |
| `IndexManager.Manager.ValidateUniqueInBatch` | internal/query/sql/index/ops.go:143-156 | Accepts exactly when no other row of the batch had the key, and remembers it |
| `IndexManager.Manager.LookupEqual` | internal/query/sql/index/ops.go:180-184 | Returns the ids of the scan of the value’s prefix |
| `IndexManager.Manager.LookupRange` | internal/query/sql/index/ops.go:188-229 | Returns the ids of the scan between the bounds |
| `IndexManager.Manager.ScanRowIDs` | internal/query/sql/index/ops.go:279-294 | Reads the row ids behind a prefix in key order |
| `IndexManager.Manager.Match` | internal/query/sql/index/ops.go:242-276 | Returns each row found under every term of the query, once |
| `WordSearch.MatchContains` | internal/query/sql/index/ops.go:242-276 | With the real tokenizer: for a query of ASCII words and of scripts without case, Match returns exactly the rows whose token set contains the query’s |
| `WordSearch.MatchFinds` | internal/query/sql/index/ops.go:232-276 | For any query: exactly the rows whose tokens include the lower case of each token of the query |
| `WordSearch.ContainmentIff` | internal/query/sql/index/ops.go:232-239 | Over all texts, Match means containment exactly when the query has no character above ASCII with another lower case |
| `WordSearch.CapitalMissesItself` | internal/query/sql/index/ops.go:232-239 | Where it fails: a row that holds the one letter É is not found by É |
| `WordSearch.SubstringFound` | internal/query/sql/index/ops.go:242-276 | A query in one run of a script without case finds every row whose text contains it |
| `WordSearch.TokenIsWord` | internal/query/sql/index/tokenize.go:15-68 | A token is not empty, and is an ASCII word in lower case or made of the text’s own characters above ASCII |
| `Utf8.WordTold` | internal/query/sql/index/tokenize.go:15-68 | Different words have different UTF-8 bytes |
| `Tokenize.TokensIff` | internal/query/sql/index/tokenize.go:15-68 | A token is exactly the normal form of a word of some maximal run of the text, and none comes twice |
| `Tokenize.SubstringTokens` | internal/query/sql/index/tokenize.go:73-84 | A query in one CJK run has no token that a document containing it lacks |
| `Tokenize.TokenizeText` | internal/query/sql/index/tokenize.go:15-68 | The loop with its two buffers and its seen map returns Tokens, which is defined over maximal runs |
| `Tokenize.TokenizeCJK` | internal/query/sql/index/tokenize.go:73-84 | Emits every two neighbours, then every character |
| `HnswSearch.SearchLayer` | internal/vector/hnsw.go:302-354 | Terminates with distinct live ids at their true distances, ascending, at most ef, all reachable from the entry, and every neighbour of a result is a result or no nearer than the last of ef |
| `HnswGraph.FindsAllReachable` | internal/vector/hnsw.go:302-354 | With a beam at least as wide as the reachable set, the result is all of it |
| `HnswGraph.FirstAreNearest` | internal/vector/hnsw.go:302-354 | Then the first k are k nearest of all reachable nodes |
| `HnswGraph.InsertSorted` | internal/vector/hnsw.go:452-460 | Binary search puts the item behind all that are not farther, keeping the list ascending |
| `HnswIndex.Index.Insert` | internal/vector/hnsw.go:86-180 | Keeps the structure (entry live and of highest level, no self-edges, edges only to gone nodes or ones high enough, degrees at most mMax); on every layer up to the smaller of its own and the top level the new node is linked both ways with the first m or mMax results of a beam search of that layer, which starts at the nearest node the search above found, the first one at the entry or where a greedy descent from it ends; neighbours over the limit keep the nearest, and no other edge changes; the index stays valid exactly when the id is not empty |
| `HnswIndex.Index.Delete` | internal/vector/hnsw.go:220-251 | Keeps the structure; removes the node and, on each layer, the edge to it from exactly the nodes on its own list; every other edge stays, and so does the entry unless it was this node |
| `HnswIndex.Index.Search` | internal/vector/hnsw.go:183-217 | On a non-empty index between 1 and k distinct live ids with true distances, ascending: the first k of a beam search of the lowest layer that starts where the descent from the entry ends |
| `HnswIndex.Index.Descend` | internal/vector/hnsw.go:138-144 | From the start through every layer above the target one step: the first result of a beam of width one on that layer from where the layer above ended |
| `HnswIndex.DescentEnds` | internal/vector/hnsw.go:138-144 | Such a descent ends no farther from the query than it began, at a node none of whose neighbours on the layer above the target is nearer |
| `HnswIndex.Index.PruneConnections` | internal/vector/hnsw.go:373-405 | Keeps the nearest mMax live neighbours, and no dropped live one is nearer than a kept one |
| `HnswIndex.Index.Connect` | internal/vector/hnsw.go:157-167 | Links two nodes both ways; only their edges on the layer change |
| `HnswIndex.Index.LinkLayer` | internal/vector/hnsw.go:147-173 | Links the new node with the nearest found on one layer, and goes on from the nearest |
| `HnswIndex.Index.constructor` | internal/vector/hnsw.go:59-83 | Defaults for missing parameters, and mMax twice m |
| `HnswIndex.ExactWhenConnected` | internal/vector/hnsw.go:183-217 | On a connected lowest layer with a beam as wide as the index, no node left out is nearer than the last of k results |
| `HnswIndex.BeamOfOne` | internal/vector/hnsw.go:302-354 | A beam of width one stops where no neighbour is nearer |
| `PrintParse.PrintThenParse` | internal/query/sql/ast.go:250-322 | For every expression of names that are no keywords, int64 and string literals with doubled quotes, booleans, NULL, star, binary operators, NOT and minus, ParseExpr(e.String()) is e |
| `PrintParse.PrintTellsApart` | internal/query/sql/ast.go:250-322 | Different such expressions print differently |
| `PrintBrief.BriefThenParse` | internal/query/sql/parser.go:856-1152 | Text with no more parentheses than ranks ask for (OR, AND, NOT, comparisons and BETWEEN, LIKE, IS NULL, + and −, * / %, minus; operands to the left of their own rank bare, to the right not) is read back, and to its end, for every expression of names, literals, operators and these forms |
| `PrintBrief.ChainReads` | internal/query/sql/parser.go:856-1051 | In a op b next c the second operator takes b exactly when it ranks higher; of two comparisons only the first is read |
| `LexSpelled.SpelledTextIsLexed` | internal/query/sql/lexer.go:258-412 | Any spelling of any sequence of tokens, keywords in any case, != also as <>, strings in either quotes, numbers with sign and fraction, with any white space between them, is read as these tokens |
| `PrintStrings.RoundTripsIff` | internal/query/sql/ast.go:250-322 | Of all expressions whose parts printing keeps, exactly those come back whose names are words and no keywords, whose integers fit int64, whose operators are in their place, and whose strings, wherever they stand, have their quotes doubled |
| `PrintStrings.StringRoundTripsIff` | internal/query/sql/lexer.go:309-328 | A string literal comes back exactly when the single quotes in it come in pairs |
| `PrintStrings.DoubleQuotedIsLost` | internal/query/sql/lexer.go:309-328 | Where it fails: "it's" in double quotes is read as a string that prints as text which does not read back |
| `PrintStrings.TakesOr` | internal/query/sql/parser.go:856-1152 | Parsing takes the string tokens in order: the strings of what was read are those of the tokens it took |
| `PrintLimits.ParsedIsSound` | internal/query/sql/parser.go:27-35 | Whatever the text, parsed names are words and no keywords, integers fit int64 and operators are in their place |
| `PrintParse.DecimalReadsBack` | internal/query/sql/parser.go:1070-1130 | Reading printed digits gives the number back exactly in the int64 range, and nothing outside it |
| `PrintParse.OperandAsNot` | internal/query/sql/parser.go:894-1067 | What the primary level reads, every level up to NOT reads as it is when no operator of those levels follows |
| `PrintLex.StringEndsIff` | internal/query/sql/lexer.go:309-328 | A printed string ends at its closing quote exactly when its own quotes are doubled |
| `PrintLex.LexOperands` | internal/query/sql/lexer.go:258-300 | Inside a printed binary expression the lexer finds both operands’ tokens, the operator and the parentheses |
| `Lexer.Scanner.Tokenize` | internal/query/sql/lexer.go:258-300 | The scanner, moving start and pos over the input, returns the tokens the grammar of tokens defines, or an error on an unclosed string |
| `Lexer.Scanner.ReadString` | internal/query/sql/lexer.go:309-328 | Ends at the first quote that is not doubled |
| `Lexer.Scanner.ReadNumber` | internal/query/sql/lexer.go:330-357 | Sign, digits and at most one fraction |
| `Lexer.Scanner.ReadIdent` | internal/query/sql/lexer.go:359-374 | The longest run of word bytes, a keyword in any case |
| `Lexer.StringEnd` | internal/query/sql/lexer.go:309-328 | Where a string ends, it ends at its own quote |
| `Lexer.SymbolStep` | internal/query/sql/lexer.go:376-412 | Every operator step moves on: the lexer’s progress |
| `Parser.ParseText` | internal/query/sql/parser.go:27-35 | ParseExpr as written, lexer and parser, returns what the grammar functions say of the text |
| `Parser.ExprParser.ParseOrExpr` | internal/query/sql/parser.go:856-872 | The loop of the lowest level builds the left-associated tree of the grammar and stops where it does |
| `Parser.ExprParser.ParseNotExpr` | internal/query/sql/parser.go:894-904 | NOT binds looser than comparison |
| `Parser.ExprParser.ParseComparisonExpr` | internal/query/sql/parser.go:907-1011 | One comparison, BETWEEN, LIKE or IS NULL behind an operand |
| `Parser.ExprParser.ParseAddSubExpr` | internal/query/sql/parser.go:1014-1031 | The loop over + and −, left-associated, above the level of *, / and %; `PrintBrief` pins which operators each level takes |
| `Parser.ExprParser.ParseUnaryExpr` | internal/query/sql/parser.go:1054-1067 | Minus in front of an operand |
| `Parser.ExprParser.ParsePrimaryExpr` | internal/query/sql/parser.go:1070-1130 | Literals, names and parenthesised expressions |
| `Parser.ExprParser.ParseIdentOrFunc` | internal/query/sql/parser.go:1132-1152 | Names, qualified or not |
| `Parser.ExprParser.Skip` | internal/query/sql/parser.go:1285-1292 | Moves over the expected token and stays otherwise |
| `GraphStore.Graph.ShortestPath` | internal/graph/store.go:299-355 | Returns a path of stored edges in the direction that no path is shorter than, and None exactly when there is none |
| `GraphStore.Graph.KHopNeighbors` | internal/graph/store.go:244-296 | Returns exactly the stored nodes at distance k, each once, sorted |
| `GraphStore.Graph.GetNeighbors` | internal/graph/store.go:198-241 | Returns exactly the stored nodes one step away in the direction, each once |
| `GraphStore.AlwaysStored` | internal/graph/store.go:23-170 | After any sequence of AddNode, AddEdge with a fresh id, DeleteEdge and DeleteNode, each edge is stored under its id and exactly its two index entries exist |
| `GraphStore.DropNodeDrops` | internal/graph/store.go:70-94 | DeleteNode takes away the node and every edge that touches it, and nothing else |
| `GraphStore.Graph.GetEdges` | internal/graph/store.go:173-185 | The edges of the out index, then of the in index |
| `GraphStore.Graph.DeleteNode` | internal/graph/store.go:70-94 | Looks the node up, deletes its edges one by one, then its keys |
| `GraphStore.Graph.DeleteEdge` | internal/graph/store.go:153-170 | Removes the edge’s own keys, and fails exactly when there is no such edge |
| `GraphStore.Graph.AddEdge` | internal/graph/store.go:97-135 | Writes the edge and its three index entries, unless an id is empty |
| `GraphStore.Graph.AddNode` | internal/graph/store.go:23-52 | Writes the node and its index entries, unless the id is empty |
| `GraphStore.Graph.EdgesByIndex` | internal/graph/store.go:409-429 | Reads the edges behind one index field |
| `GraphStore.IncidentTouch` | internal/graph/store.go:173-185 | GetEdges lists exactly the stored edges that touch the node |
| `GraphIndex.OutFound` | internal/graph/store.go:409-429 | The out index lists exactly the stored edges that leave the node |
| `GraphIndex.InFound` | internal/graph/store.go:409-429 | The in index lists exactly the stored edges that enter the node |
| `Adjacency.AddEdgeKeepsIff` | internal/graph/store.go:97-135 | Adding an edge keeps edges and index in step exactly when the id is new or its edge keeps its ends |
| `Adjacency.AddEdgeAdds` | internal/graph/store.go:97-135 | A new edge is added to the stored ones, and nothing else changes |
| `Adjacency.DropEdgeKeeps` | internal/graph/store.go:153-170 | Deleting an edge removes it alone |
| `Adjacency.AddNodeKeeps` | internal/graph/store.go:23-52 | Adding a node leaves edges and other nodes alone |
| `Adjacency.EdgeNamedNodeBreaks` | internal/graph/store.go:23-52 | Where it fails: a node whose id starts with "edge:" takes the place of an edge |
| `GraphStore.Graph.NodesByIndex` | internal/graph/store.go:358-402 | Reads the nodes behind one index field, as many as the limit allows |
| `NodeIndex.TypeFound` | internal/graph/store.go:358-378 | While the indexes are in step with the stored nodes, finding by type returns exactly the stored nodes of the type, by ascending id, and with a limit the first of them |
| `NodeIndex.NameFound` | internal/graph/store.go:381-401 | The same by name |
| `NodeIndex.EdgeTypeFound` | internal/graph/store.go:404-406 | Finding edges by type returns exactly the stored edges of the type; its limit is not looked at |
| `NodeIndex.AlwaysIndexed` | internal/graph/store.go:23-170 | After any sequence of calls in which what is added again keeps its type, name and ends, there is an index entry for each node’s type and name and each edge’s type, and no other |
| `NodeIndex.AddNodeIndexesIff` | internal/graph/store.go:23-52 | Adding a node keeps these indexes in step exactly when its id is new or its node keeps type and name: otherwise the old entry stays, and finds it |
| `NodeIndex.AddEdgeIndexesIff` | internal/graph/store.go:97-135 | Adding an edge does exactly when the id is new or its edge keeps its ends and type |
| `NodeIndex.DropNodeIdIndexes` | internal/graph/store.go:70-94 | Deleting a node with its edges keeps them in step |
| `GraphPaths.WithinIff` | internal/graph/store.go:244-296 | Reachability within n steps is the existence of a path of at most n edges |
| `GraphPaths.DistanceIff` | internal/graph/store.go:244-296 | A distance is the length of a shortest path |
| `GraphPaths.NoShorter` | internal/graph/store.go:299-355 | When the search first meets the target from depth d, every path to it has at least d + 1 steps |
| `GraphPaths.NoPath` | internal/graph/store.go:299-355 | When the queue is empty, no path leads to an unvisited node |
| `TableManager.RunOk` | internal/storage/table_manager.go:185-278 | In every state of every run of creating, dropping, writing and restarting, live tables have distinct prefixes in 0x30..0xFE, own all user keys, and the counter is above every prefix in use and never wraps |
| `TableManager.EventKeeps` | internal/storage/table_manager.go:185-278 | Every event touches the keys of no other live table, and a created table’s range is empty |
| `TableManager.Manager.Init` | internal/storage/table_manager.go:53-85 | Loading the stored tables gives the same map and a counter just past the highest prefix |
| `TableManager.Manager.CreateTable` | internal/storage/table_manager.go:185-224 | Refuses a used name or an exhausted counter; otherwise the new table has a prefix of its own and an empty range, and the store stays in order if the table has a name |
| `TableManager.Manager.DropTable` | internal/storage/table_manager.go:227-278 | Removes the metadata and every key of the range; refuses missing and built-in tables |
| `TableManager.WriteKeeps` | internal/storage/table_manager.go:185-278 | A write to a table’s rows leaves every other table’s range as it was |
| `TableManager.CreateKeeps` | internal/storage/table_manager.go:185-224 | A new prefix adds one table with an empty range |
| `TableManager.CreateKeepsIff` | internal/storage/table_manager.go:185-224 | A new table leaves the store in order exactly when it has a name |
| `TableManager.NamelessIsLost` | internal/storage/table_manager.go:53-85 | Where it fails: a table without a name is passed over by a restart, which gives its prefix to the next table |
| `TableManager.DropKeeps` | internal/storage/table_manager.go:227-278 | Dropping removes one table and leaves every other range as it was |
| `KeyEncode.PrefixRangeIsExactIff` | internal/storage/keyencode.go:94-112 | The range holds exactly the keys with the prefix just when the last byte is below 0xFF or all bytes are 0xFF |
| `KeyEncode.CarryLetsIn` | internal/storage/keyencode.go:94-112 | Where it fails: a carry leaves zeros behind and lets in a key without the prefix |
| `KeyEncode.LowPrefixIsExact` | internal/storage/keyencode.go:94-112 | For a last byte below 0xFF the range is exact |
| `KeyEncode.PrefixRange` | internal/storage/keyencode.go:94-112 | The carry loop computes PrefixEnd |
| `KeyEncode.IndexIdReadBack` | internal/storage/keyencode.go:47-80 | The id comes back out of an index key whose field holds no zero |
| `KeyEncode.DecodeIndexID` | internal/storage/keyencode.go:70-80 | The scan for the separator reads DecodeIndexId |
| `Engine.Store.Scan` | internal/storage/engine.go:1-207 | Visits exactly the keys of the half-open range, each once, in lexicographic order |
| `Engine.Store.BatchWrite` | internal/storage/engine.go:1-207 | Applies its operations in order |
| `Cache.LruCache.Get` | internal/storage/cache.go:33-45 | Answers what the contents hold and moves a found key to the front |
| `Cache.LruCache.Set` | internal/storage/cache.go:48-70 | The key comes to the front; a full cache loses the key at the back and no other |
| `Cache.LruCache.Delete` | internal/storage/cache.go:73-81 | Removes the key from map and list |
| `Cache.LruCache.Evict` | internal/storage/cache.go:84-89 | Removes exactly the entry at the back |
| `Cache.KeepsMostRecent` | internal/storage/cache.go:48-96 | After any sequence of uses the cache holds the n keys used last, most recent first |
| `Cache.LargerHoldsMore` | internal/storage/cache.go:48-96 | A larger cache holds everything a smaller one does |
| `Session.SessionManager.Get` | internal/agent/session.go:55-73 | Answers as the engine alone would, whatever is cached or evicted |
| `Session.SessionManager.Create` | internal/agent/session.go:28-52 | Writes session and agent index entry to the engine and keeps the cache in agreement |
| `Session.SessionManager.Update` | internal/agent/session.go:76-89 | Overwrites the session, cache in agreement |
| `Session.SessionManager.Delete` | internal/agent/session.go:92-106 | Succeeds exactly when the engine had the session, and removes it from engine and cache |
| `Session.SessionManager.UpdateState` | internal/agent/session.go:173-180 | Changes only the state of a stored session |
| `Session.SessionManager.ListByAgent` | internal/agent/session.go:109-132 | Reads the sessions behind the agent’s index entries, through the cache |
| `SessionIndex.ListsAllOfAgent` | internal/agent/session.go:109-132 | While the index has an entry for each session and no other, the listing is exactly the agent’s stored sessions by ascending id |
| `SessionIndex.ListsFirstOfAgent` | internal/agent/session.go:109-132 | With a limit it is the first of these |
| `SessionIndex.CreateKeepsIndex` | internal/agent/session.go:28-52 | Creating a session under a new id keeps the index so |
| `SessionIndex.DeleteKeepsIndex` | internal/agent/session.go:92-106 | and so does deleting one |
| `SessionIndex.UpdateKeepsIndexIff` | internal/agent/session.go:76-89 | Updating keeps it so exactly when a session is stored under the id and has the same agent |
| `SessionIndex.EachAnswers` | internal/agent/session.go:28-106 | After a call the engine answers for exactly the session created, changed or deleted otherwise than before |
| `Session.UpdateKeeps` | internal/agent/session.go:76-89 | Writing engine, then cache, keeps every cached value equal to the engine’s, after any evictions |
| `Session.DeleteKeeps` | internal/agent/session.go:92-106 | Deleting from both keeps it so |

## Left out

- Raft membership change, snapshots, log compaction, election timers and what must happen in time (RaftProgress is about what can happen), the leader hint, waiting proposals, dispatch of commands by their first byte.
- Raft storage failures and fsync: every write succeeds, and a restart loses only role, next and match indexes. Term, vote, log, commit and applied index survive, so a crash between persisting the applied index and the call of Apply is not modelled: that call is lost.
- The moment of the call of Apply: entries are handed out under the lock and Apply is called after it is released, so calls for two batches may overlap (internal/raft/run.go:412-416); the theorems are about the order in which entries are handed out.
- Term and index overflow: naturals stand for uint64; a next index is at least 1 where a request is built.
- RaftIntended.AppendIsIntendedIff: supposes that what was committed has been handed out and that the request's entries have consecutive indexes, which every request of the protocol has.
- RaftIntended.RequestIsIntendedIff: supposes a next index between 1 and one past the last entry, which the invariant gives for a leader.
- RaftText.TextRunIsRun: the term and last entry a pre-vote asks with are read at one moment (internal/raft/run.go:56-58 reads them one by one); no step of the protocol depends on them.
- PlanMeaning.WhereMeaning: for one table without grouping, aggregates or joins; on predicates other than identifiers, literals, binary and unary operators the scan evaluates to NULL, as the program does.
- OrderedScanLimits.ProjectedOrderIff: for ascending order without LIMIT and OFFSET, and a result column named id that is the column id.
- What aggregate functions compute, and the text of group values, which are given; joins, subqueries, function calls and MATCH scans in plans; CREATE TABLE, ALTER TABLE and DROP TABLE through SQL.
- The JSON form of rows, metadata, nodes, edges and sessions, which is an injective codec here; a float read back from JSON is the value stored.
- Conversion between int64 and binary64, strconv.ParseFloat, float formatting, the four operations and negation of binary64 and vector distance in SQL: functions given to the model; division by zero and the remainder are the program's.
- Column constraints (types, NOT NULL, defaults) and generated ids: given to the executor; an INSERT that a constraint refuses is refused as a whole row.
- Reloading index metadata on start; the fallback to a scan when an index vanished between planning and running.
- UPDATE that changes the primary key, and the built-in tables as targets of SQL.
- strings.EqualFold on names is ASCII case folding here.
- Plans are values: injectReverse returns a new tree instead of overwriting an input field.
- sort.SliceStable is a stable insertion sort, which RowOrder.SortsIff shows to be any stable sort where the keys are ordered; where they are not its result is not modelled. sort.Slice in pruning is any sort.
- WhereLaws.ArithmeticChooses: for integers up to 2^53 and exact results, with binary64 arithmetic that is exact there.
- SelectMeaning.SelectReturns: for plans without indexes, and ORDER BY on keys that are ordered; the theorems on plans compare the others with these.
- Token positions; Unicode white space at the ends of a text; the bytes of illegal tokens.
- Parsing of function calls, IN, MATCH and subqueries: the parser model stops with an outcome of its own there.
- PrintParse.PrintThenParse: not for float literals, whose text comes from the given formatter, nor BETWEEN, LIKE and IS NULL, whose String drops or changes parts (internal/query/sql/ast.go:344-390); PrintBrief.BriefThenParse has these forms in full, and floats whose text is digits with a point that reads back.
- Unicode classes, lower case above ASCII and the decoding of UTF-8 are given to the tokenizer; trimming a token is the identity, since tokens hold no white space.
- HNSW: updating the vector of a stored id (rebuildConnections) and recall; float32 is real; the level is chosen by the caller, and where the program takes neighbours of equal distance in the order of an unstable sort the model allows any.
- Graph properties, weights and timestamps, ids given as query values, and errors of the engine or the codec.
- NodeIndex.AlwaysIndexed: for types and names that hold no zero byte.
- LRU locking, hit and miss counters, Stats and Clear.
- Sessions: listing all of them, the transition table, and writers to session keys other than the session manager.
- SessionIndex.ListsAllOfAgent: for agent names that hold no zero byte.
- TableManager.Manager.Init: supposes a store kept by this manager; built-in tables are registered beside the stored ones, and their columns are not modelled.
- ALTER TABLE, column metadata and case folding of table names in the table manager.
- The reverse iterator of the engine, goroutine timing and the storage engine itself, which is an ordered map.
