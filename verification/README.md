# A verified model of the dual-versioned transactional memory

This project models, in Dafny 4.11, the software transactional memory of `321215/`, the bank workload that exercises it,
and the two thread protocols of the grading program, and proves what they promise.

**The memory.** Every word has two copies, a flag that says which one is readable, and three control fields. Transactions
run in epochs: the batcher lets one batch run, makes newcomers wait, and when the last transaction of the batch leaves it
publishes allocations, swaps the copies of words that committed transactions wrote, clears the control fields of every
accessed word and frees segments. The model has three levels.

* *Objects* (`Objects.dfy`, `Batching.dfy`): the classes `Word`, `Transaction`, `Segment`, `DualStm` and `Batcher`, updated
  in place, each method proved against functions on values (`Words.dfy`, `Ranges.dfy`, `Index.dfy`, `Epochs.dfy`).
* *Protocol* (`Protocol.dfy`): any number of transactions, in any interleaving; each locked word access, each `enter` and
  each `leave` is one step, and uses the same functions on values. `Invariant.dfy` says what every reachable state
  satisfies; `Preserve.dfy`, `Steps.dfy`, `Arrivals.dfy` and `Settle.dfy` prove it step by step, `Runs.dfy` for whole runs.
* *Meaning*: what the protocol is for. `Wholeness.dfy` (which words exist, and when), `FreshWords.dfy` (what unwritten ones
  hold), `Conflicts.dfy` (flags, lost updates,
  aborts), `Commits.dfy` and `Crowds.dfy` (which epochs are bound to commit someone), `Snapshots.dfy` (refinement of a machine
  with a snapshot and private write buffers), `Serial.dfy`, `Orders.dfy`, `Serializability.dfy`, `History.dfy`,
  `Precedence.dfy` and `Theorems.dfy` (serial executions of whole runs), `RealTime.dfy`, `Persistence.dfy` and
  `Visibility.dfy` (order of epochs, life of segments and of written values), `RoundTrips.dfy` (accesses to several words),
  `Counterexamples.dfy`.

`Abstraction.dfy` and `ObjectSteps.dfy` tie the first level to the second: a new memory shows the protocol's first state, and
objects that show a state show the next one after entering, a word access, an allocation, a free or a departure, the last one of
an epoch with its loops included. An access to consecutive words of a segment a transaction may use is one the memory serves.

**Memory is never lost.** Every segment handed out has a recorded number of words. `Wholeness.RunWhole` says that in every
reachable state a segment in use, shared or private, holds exactly those words and no others; the other results build on it.
The machine that `Snapshots` refines has, after each epoch, a word for every place of every live segment, holding the committed
value or the old one; a serial execution ends with exactly the words that exist; a committed write is there for as long as its
segment is shared.

**What is true of it, and what is not.** The write guard (`321215/word.cpp:115`) refuses a write only once two transactions
have accessed the word, so a transaction may overwrite, blindly, a word that exactly one other transaction has read. Two
transactions that each do so to the other can both commit: `Counterexamples.WriteSkew` is a reachable state whose committed
transactions no serial execution explains, in any order at all, across epochs or within them. What holds is proved for all runs: snapshot isolation, no lost update, and, for any chosen order of the
committed transactions of each epoch, a serial execution in that order exists exactly when no overwriting is noticed
(`History.RunSerializable`); such an order exists whenever, in each epoch, the relation "read what the other overwrote" among
committed transactions has no cycle (`Theorems.AcyclicRunIsSerial`), and an order that puts readers first exists exactly then
(`Precedence`). The debugging check that every epoch commits someone (`321215/batcher.cpp:63-68`) can fail
(`Counterexamples.NobodyCommits`): for members of given kinds it can happen if and only if there are two or more and all are
read-write (`Crowds.EpochCanFailIff`); each single abort has its exact condition (`Conflicts.ReadAborts`, `Conflicts.WriteAborts`).

**The client contract.** As in `grading/transactional.hpp:292-330`: a transaction leaves once and does nothing after a failed
call; read-only transactions do not write, allocate or free; accesses are aligned, in range and inside a segment that is live
for the transaction. The shared index search (`321215/dual_stm.cpp:68-69`) reads the entry it finds without testing for the
end of the map, so `Index.LookupBelow` requires that some shared segment end above the address; `Objects.DualStm.Locate`
shows that an access inside a live segment meets that.

**The bank** (`Ledgers.dfy`, `Bank.dfy`). The transactions of the workload over the linked list of account segments, and the
conservation law they keep: parities plus balances equal the initial balance times the number of accounts.

**The threads** (`Counting.dfy`, `Barriers.dfy`, `BarrierRuns.dfy`, `Rounds.dfy`, `RoundSteps.dfy`, `RoundRuns.dfy`,
`RoundProgress.dfy`, `RoundVerdicts.dfy`, `RoundSync.dfy`). The reusable spin barrier and the master/worker round
protocol, for any number of threads and any interleaving of their atomic operations, which are sequentially consistent here.

Comments in the source that differ from its code are not followed: `321215/transaction.hpp:48` announces a strict lower bound
for an address inside a segment, where the code includes the start address, as the model does.

## Model

| member | source | states |
|---|---|---|
| Objects.Word.constructor | 321215/word.cpp:6-13 | a new word holds, in both copies, as many bytes as its alignment says, each of them 0, and nobody has accessed it |
| Objects.Word.AddToAccessSet | 321215/word.cpp:16-33 | the control fields and the transaction's access map after an access |
| Objects.Word.ReadCopy | 321215/word.cpp:38-55 | returns the readable or the writable copy, whichever was asked for |
| Objects.Word.WriteCopy | 321215/word.cpp:59-65 | replaces the writable copy only |
| Objects.Word.Read | 321215/word.cpp:68-97 | answer, word, access map and abort flag of a read, in every branch |
| Objects.Word.Write | 321215/word.cpp:100-127 | answer, word, access map and abort flag of a write, in every branch |
| Objects.Word.ResetState | 321215/word.cpp:131-135 | clears the control fields and neither copy nor their roles change |
| Objects.Word.UpdateWritten | 321215/word.cpp:139-142 | clears the control fields and swaps the roles of the copies |
| Objects.Transaction.constructor | 321215/transaction.hpp:75-76 | a new transaction has accessed, allocated and freed nothing |
| Objects.Transaction.AddSegment | 321215/transaction.hpp:42-46 | the private index stays consistent and disjoint with the new segment in it |
| Objects.Transaction.FindSegment | 321215/transaction.hpp:50-66 | finds a segment if and only if a private one contains the address, and then that one |
| Objects.Transaction.Commit | 321215/transaction.cpp:8-16 | every accessed word is cleared, and exactly the written ones are swapped |
| Objects.Transaction.Abort | 321215/transaction.cpp:19-27 | every accessed word is cleared and none is swapped |
| Objects.Segment.constructor | 321215/segment.cpp:7-16 | consecutive fresh words at multiples of the alignment, every byte of both copies 0 |
| Objects.Segment.Read | 321215/segment.cpp:26-36 | how many words a read gets through, what it returns, and what it leaves on words and maps |
| Objects.Segment.Write | 321215/segment.cpp:38-50 | how many words a write gets through and what it leaves on words and maps, part-way failure included |
| Objects.Segment.CheckEpochEnd | 321215/segment.cpp:53-64 | true if and only if every word is back in its initial control state |
| Objects.DualStm.constructor | 321215/dual_stm.cpp:13-22 | one shared segment starting at address 1, every byte of its words 0, with a valid index |
| Objects.DualStm.AddSegment | 321215/dual_stm.cpp:42-46 | the shared index stays valid with the published segment in it |
| Objects.DualStm.FreeSegment | 321215/dual_stm.cpp:51-59 | exactly that segment goes, and freeing what is not there changes nothing |
| Objects.DualStm.FindShared | 321215/dual_stm.cpp:67-76 | finds a segment if and only if a shared one contains the address, and then that one |
| Objects.DualStm.FindSegment | 321215/dual_stm.cpp:64-78 | the private segment containing the address, else the shared one, else none |
| Objects.DualStm.Locate | 321215/dual_stm.cpp:93-100 | an access inside a live segment reaches that segment at the right word index and count, without running off the index |
| Objects.DualStm.Read | 321215/dual_stm.cpp:93-104 | a read of a range of a live segment: how far it got, the bytes, and what it leaves on exactly the words at those addresses |
| Objects.DualStm.Write | 321215/dual_stm.cpp:118-129 | the same of a write, part-way failure included |
| Objects.DualStm.Alloc | 321215/dual_stm.cpp:141-150 | a fresh private segment at the old end address, every byte of its words 0; the end address moves past it |
| Objects.DualStm.Free | 321215/dual_stm.cpp:153-157 | the address is appended to the transaction's list of frees |
| Index.UpperBound | 321215/dual_stm.cpp:68 | the least end address above a given address, if there is one |
| Index.LookupAgrees | 321215/dual_stm.cpp:68-76 | the entry at the least end above an address names the only segment that can contain it: the same answer as a linear search |
| Index.NoneAbove | 321215/transaction.hpp:52-55 | without an end above the address no segment contains it |
| Index.Lookup | 321215/transaction.hpp:50-66 | true if and only if some segment contains the address, and then its start |
| Index.LookupBelow | 321215/dual_stm.cpp:68-76 | the unchecked search finds a segment if and only if one contains the address |
| Index.AddKeeps | 321215/dual_stm.cpp:42-46 | both maps stay consistent and ranges disjoint when a separate segment is added |
| Index.RemoveKeeps | 321215/dual_stm.cpp:51-59 | and when a segment is removed |
| Ranges.WordRoundTrip | 321215/word.cpp:77-82 | a writer reads back from a word what it wrote, as often as it likes |
| Ranges.WriteThenRead | 321215/segment.cpp:26-50 | an uninterrupted multi-word write and the writer's read right after it of the same words: it succeeds, changes no word and returns the same bytes |
| Ranges.OverlappingRead | 321215/segment.cpp:26-50 | an uninterrupted write and a read right after it of any range of the segment: words inside give their slice, words outside what they gave before |
| Ranges.WriteThenCommit | 321215/transaction.cpp:10-12 | an uninterrupted write settled for a committed writer: the words' readable copies are the bytes written |
| Ranges.WriteThenAbort | 321215/transaction.cpp:19-27 | an uninterrupted write, complete or stopped part-way, settled for a writer that did not commit: every readable copy as it was and every word clean |
| Ranges.JoinSlices | 321215/segment.cpp:39-46 | cutting a buffer into words and joining them gives the buffer back |
| Batching.Batcher.constructor | 321215/batcher.hpp:24-47 | a new batcher is idle in epoch 0 |
| Batching.Batcher.Enter | 321215/batcher.cpp:21-38 | epoch and number of a newcomer, whether it waits, and the new state of the batcher |
| Batching.Batcher.CountLeave | 321215/batcher.cpp:52-59 | a departure is counted and filed as committed or aborted |
| Batching.Batcher.Leave | 321215/batcher.cpp:41-91 | an early departure changes nothing else; the last one settles every accessed word, publishes, frees, starts the next epoch and wakes everyone who waited |
| Batching.Batcher.OnEpochEnd | 321215/batcher.cpp:98-135 | the whole effect of an epoch's end on words and shared segments |
| Batching.Batcher.StartNext | 321215/batcher.cpp:75-86 | everyone who waited runs in the next epoch |
| Batching.Batcher.WakeAll | 321215/batcher.cpp:81-84 | the queue is empty and everyone in it is awake |
| Batching.SettleEpoch | 321215/batcher.cpp:102-131 | publish, settle, free, in that order |
| Batching.SettleWords | 321215/batcher.cpp:112-119 | every accessed word is cleared, and swapped exactly if a committed transaction wrote it |
| Batching.PublishAll | 321215/batcher.cpp:103-109 | the shared segments become the old ones and all those of committed transactions |
| Batching.FreeAll | 321215/batcher.cpp:122-128 | exactly the segments freed by committed transactions go, repeated or unknown frees having no effect |
| Batching.LeavingOrderIrrelevant | 321215/batcher.cpp:98-135 | whatever the order in which the same transactions left, committed and aborted ones, every word and every shared segment is the same after the epoch |
| Abstraction.MembersSettleable | 321215/batcher.cpp:98-135 | what the loops need of the committed transactions (written words and segments apart, private indices publishable) holds of the members of every reachable epoch |
| Abstraction.EpochEndShown | 321215/batcher.cpp:98-135 | the loops over the objects do to words and shared segments what the protocol's epoch end does to the state they show |
| Abstraction.Leave | 321215/batcher.cpp:41-91 | a departure on objects that show a reachable state leaves them showing the protocol's next state |
| Abstraction.ReadWord | 321215/word.cpp:68-97 | the same of a word's read, whose answer is the value the protocol records |
| Abstraction.WriteWord | 321215/word.cpp:100-127 | and of a word's write |
| ObjectSteps.Enter | 321215/batcher.cpp:21-38 | of entering: the transaction is the newest member, or waits as the last one with its epoch and number |
| ObjectSteps.Allocate | 321215/dual_stm.cpp:141-150 | of an allocation, the new word objects joining those known by address |
| ObjectSteps.Release | 321215/dual_stm.cpp:153-157 | and of a free |
| ObjectSteps.Open | 321215/dual_stm.cpp:13-22 | a new memory of n words with its batcher shows the protocol's first state |
| ObjectSteps.AccessIsServed | 321215/dual_stm.cpp:64-100 | an access to n consecutive words of a shared segment or one's own, from any word on, meets what `DualStm.Read` and `DualStm.Write` ask for, and reaches exactly the word objects at those addresses |
| ObjectSteps.OthersStay | 321215/word.cpp:68-127 | such a step leaves the other members' objects showing their members |
| ObjectSteps.OthersStayAllocating | 321215/dual_stm.cpp:141-150 | and so does an allocation |
| Runs.CreateInv | 321215/dual_stm.cpp:13-22 | the invariant holds of a new memory |
| Steps.ReadKeeps | 321215/word.cpp:68-97 | every read, in every branch, keeps the invariant |
| Steps.WriteKeeps | 321215/word.cpp:100-127 | every write, in every branch, keeps the invariant |
| Arrivals.StartKeeps | 321215/batcher.cpp:23-28 | entering an idle batcher keeps the invariant |
| Arrivals.WaitKeeps | 321215/batcher.cpp:29-37 | queueing up keeps the invariant |
| Arrivals.AllocateKeeps | 321215/dual_stm.cpp:141-150 | an allocation keeps the invariant |
| Arrivals.EarlyLeaveKeeps | 321215/batcher.cpp:52-60 | a departure that is not the last keeps the invariant |
| Settle.LastLeaveKeeps | 321215/batcher.cpp:60-91 | the end of an epoch re-establishes the invariant for the next one |
| Runs.StepKeeps | 321215/batcher.cpp:21-91 | every step of every transaction keeps the invariant, and no departure finds the counter at zero |
| Runs.RunInv | 321215/batcher.cpp:21-91 | the invariant holds in every state of every run |
| Runs.NeverUnderflows | 321215/batcher.cpp:45-52 | remaining is the number of released transactions that have not left, so it never drops below zero |
| Wholeness.RunWhole | 321215/segment.cpp:7-16 | in every reachable state every segment in use holds all its words, every word belongs to a segment at one of its places, and every log entry names the segment and size that are right |
| Wholeness.WordsOfSegment | 321215/segment.cpp:7-16 | the addresses of the words of a segment in use are exactly its start plus 0, 1, ... alignments, as many as it was handed out with |
| Wholeness.AllocatesExactly | 321215/dual_stm.cpp:141-150 | an allocation of n words adds exactly n words from the old end address on, their bytes 0, private to the caller, and no others |
| Wholeness.WordsSurvive | 321215/batcher.cpp:98-135 | no step, the end of an epoch included, loses a word whose segment is shared afterwards or moves it to another segment |
| FreshWords.UnwrittenReadsZero | 321215/word.cpp:6-13 | in every run, a read of a word that neither the reader nor any committed transaction of an earlier epoch wrote returns as many bytes as the alignment says, each of them 0 |
| Wholeness.RunStacked | 321215/dual_stm.cpp:141-150 | no two segments ever handed out overlap |
| Conflicts.FlagsCharacterise | 321215/word.cpp:16-33 | in every reachable state: last accessor 0 iff nobody accessed the word this epoch, many iff two or more did, written iff there is a writer, who is unique and the last accessor |
| Conflicts.NoLostUpdate | 321215/word.cpp:77-125 | a written word has one writer and at most one other accessor, which read it, and then the writer had not; so a transaction that reads a word and then writes it is alone on it |
| Conflicts.ReadAborts | 321215/word.cpp:77-86 | a read aborts if and only if another member of the epoch has written the word |
| Conflicts.WriteAborts | 321215/word.cpp:102-118 | a write aborts if and only if the word is not the writer's own and someone has written it or two members have accessed it |
| Conflicts.AloneNeverAborts | 321215/word.cpp:83-118 | the only read-write member of an epoch never aborts |
| Conflicts.ReadsAreIsolated | 321215/word.cpp:68-94 | every read of every member, aborted later or not, returned its own latest write or else the epoch-start value (zero in its own fresh segments); read-only members never abort |
| Commits.FewWritersNeverAbort | 321215/word.cpp:83-118 | over whole runs, nobody aborts in an epoch with at most one read-write member |
| Commits.EpochCommits | 321215/batcher.cpp:63-68 | every epoch of every run commits someone unless it has two or more read-write members and no read-only one |
| Crowds.NobodyCommitsOf | 321215/batcher.cpp:63-68 | for every n of two or more, a reachable state whose last epoch had n read-write members, all aborted |
| Crowds.EpochCanFailIff | 321215/batcher.cpp:63-68 | some run has an ended epoch with members of given kinds in which nobody committed if and only if there are two or more and all are read-write |
| Counterexamples.NobodyCommits | 321215/batcher.cpp:63-68 | a reachable state whose last epoch committed nobody: two members read one word and then fail to write it |
| Counterexamples.WriteSkew | 321215/word.cpp:114-125 | a reachable state whose three committed transactions no serial execution explains, in whatever order they are put |
| Snapshots.ReadRefines | 321215/word.cpp:68-97 | a read answers as a snapshot overlaid with the transaction's own buffer does, or aborts |
| Snapshots.WriteRefines | 321215/word.cpp:100-127 | a write goes to the transaction's own buffer only, or aborts |
| Snapshots.BeginRefines | 321215/batcher.cpp:21-38 | a newcomer starts with an empty buffer, now or in the next epoch |
| Snapshots.LastLeaveRefines | 321215/batcher.cpp:98-135 | the end of an epoch applies exactly the committed buffers, allocations and frees, and the next memory has a word for every place of every live segment |
| Snapshots.AllocateRefines | 321215/dual_stm.cpp:141-150 | an allocation takes a place above every segment handed out so far, with the number of words asked for |
| Snapshots.CreateIsInit | 321215/dual_stm.cpp:13-22 | a new memory shows that machine's initial state: one live segment of words whose bytes are 0 |
| Snapshots.StepRefines | 321215/word.cpp:68-142 | every step is a step of the machine with one snapshot and private write buffers, with the same answer |
| Snapshots.RunRefines | 321215/batcher.cpp:21-135 | every run is, answer by answer, a run of that machine from its initial state |
| History.Quiescence | 321215/batcher.cpp:60-70 | copies are swapped, and segments published or freed, only by the departure of the last running transaction |
| Serializability.MembersDisjoint | 321215/word.cpp:102-125 | no two members of an epoch write the same word or own the same segment |
| Serializability.EpochSerializable | 321215/word.cpp:68-127 | in any order of an epoch's committed members, serial execution shows each what it saw if and only if no overwriting is noticed; readers first is enough |
| Serializability.EpochMemory | 321215/batcher.cpp:98-135 | replaying the committed transactions in any order, frees last, gives exactly the memory of the next epoch: the same segments with the same numbers of words, the same words, the same bytes |
| History.RunSerializable | 321215/batcher.cpp:98-135 | the same two facts for whole runs from the new memory on, epoch after epoch, and any choice of orders |
| Precedence.AcyclicHasOrder | 321215/word.cpp:114-125 | if no chain of committed transactions, each reading what the next overwrote, closes, some order puts every reader first |
| Precedence.OrderIsAcyclic | 321215/word.cpp:114-125 | and an order that puts every reader first leaves no such cycle |
| Theorems.AcyclicRunIsSerial | 321215/word.cpp:68-127 | a run whose epochs have no such cycle is serializable: same reads, and a final memory with the same segments, words and bytes |
| Theorems.PastExclusive | 321215/word.cpp:77-125 | in every ended epoch, whoever read a word another wrote is read-only, or the writer wrote it blindly |
| Theorems.ReadBeforeWriteIsSerial | 321215/word.cpp:102-118 | when committed transactions read what they write first, every order with the read-only ones first is a serial execution |
| RealTime.RealTimeOrder | 321215/batcher.cpp:21-38 | a transaction that enters after another has left belongs to a strictly later epoch |
| Visibility.LeaverStaysRecorded | 321215/batcher.cpp:41-91 | the transaction that leaves in a step is, unchanged, a member of that epoch until it ends and in its record ever after |
| Visibility.LaterEpochsInclude | 321215/word.cpp:139-142 | what it wrote, if it committed, is in the memory of every later epoch while the segment is shared, unless an epoch in between overwrote it |
| Visibility.EarlierCommitsAreVisible | 321215/batcher.cpp:21-38 | whoever enters after a transaction has left and committed runs in a later epoch, and throughout that epoch the memory it reads includes those writes |
| RealTime.WaitingIsReleased | 321215/batcher.cpp:78-86 | a waiting transaction keeps its place until the very next epoch end and runs then, with the epoch and number it was given |
| RealTime.Tickets | 321215/batcher.cpp:21-38 | members carry the numbers 1, 2, ... of the current epoch, waiting ones those of the next; nobody waits on an idle batcher |
| RealTime.EpochEndSegments | 321215/batcher.cpp:102-128 | a segment is shared after an epoch iff it was, or a committed member allocated it, and no committed member freed it |
| RealTime.SharedIff | 321215/batcher.cpp:102-128 | over whole runs, a segment is shared iff its allocator committed and no transaction committed since has freed it |
| RealTime.NeverReused | 321215/dual_stm.cpp:141-150 | an address that has been freed or dropped never exists again, and 0 never does |
| RealTime.EpochEndIsClean | 321215/batcher.cpp:111-131 | between epochs every surviving word is clean and every surviving segment shared |
| Persistence.CommittedWriteStays | 321215/word.cpp:139-142 | in every reachable state a word written by a committed transaction exists if and only if its segment is shared, and holds that value unless a later epoch overwrote it |
| RoundTrips.ReadBack | 321215/segment.cpp:26-50 | a multi-word write in a log and a later multi-word read of any range on the same grid, not written in between: the bytes are those seen before, with the written ones laid over them |
| RoundTrips.ReadsBackOwnWrites | 321215/segment.cpp:26-50 | the same for every transaction of every run, whatever others do between its words |
| RoundTrips.LaterReadsAgree | 321215/transaction.cpp:8-16 | whoever reads, in a later epoch of a run, a range overlapping a committed multi-word write finds its bytes there, unless an epoch in between overwrote them |
| RoundTrips.AbortUndoes | 321215/transaction.cpp:19-27 | what an aborted transaction wrote, wholly or in part, is undone when its epoch ends: the words read as before and are clean, and its allocations are gone |
| Ledgers.OpenedIs | grading/workload.hpp:280-286 | the initial ledger has as many accounts as a segment has room for, each with the initial balance |
| Ledgers.OpenedSound | grading/workload.hpp:280-286 | the initial ledger is balanced |
| Ledgers.Transfer | grading/workload.hpp:266-274 | a transfer keeps segments, counts and parities |
| Ledgers.TransferIs | grading/workload.hpp:266-274 | with different accounts and something on the sender, the sender has one unit less, the receiver one more and every other account what it had; otherwise every account has what it had |
| Ledgers.MoveKeeps | grading/workload.hpp:269-273 | no money appears or vanishes, no balance drops below zero, and a transfer to oneself does nothing |
| Ledgers.TransferKeeps | grading/workload.hpp:266-274 | a transfer keeps the ledger balanced |
| Ledgers.NeverTheFirst | grading/workload.hpp:203-205 | an emptied last segment is never the first one, so the exception is never thrown |
| Ledgers.Shrinks | grading/workload.hpp:196-210 | destroying removes the last account only, the difference to the initial balance going to the parity |
| Ledgers.Grows | grading/workload.hpp:211-219 | creating appends one account with the initial balance and changes no other |
| Ledgers.MoneyResized | grading/workload.hpp:196-219 | all the money minus the initial balance times the number of accounts stays the same |
| Ledgers.ResizedIs | grading/workload.hpp:196-219 | with more accounts than the trigger and more than two, the last one goes and its balance less the initial one joins the parities; otherwise one with the initial balance is appended |
| Ledgers.ResizedKeeps | grading/workload.hpp:186-227 | the ledger stays balanced, segments non-empty and all but the last full |
| Ledgers.AlwaysSound | grading/workload.hpp:161-286 | after any sequence of transactions from the initialisation on, the ledger is balanced |
| Bank.WorkloadBank.Init | grading/workload.hpp:280-286 | afterwards there are nbaccounts accounts, each with the initial balance, and running it again gives the same |
| Bank.WorkloadBank.LongTx | grading/workload.hpp:161-182 | true if and only if every balance is 0 or more and parities plus balances are the initial balance times the number of accounts, and then the count is that number |
| Bank.SumAccounts | grading/workload.hpp:171-176 | the sum of one segment's balances, or that one is negative |
| Bank.WorkloadBank.FindAccounts | grading/workload.hpp:238-263 | the walk finds exactly the send-th and recv-th accounts of the concatenated segments, and fails if and only if one is past the end |
| Bank.WorkloadBank.ShortTx | grading/workload.hpp:232-275 | one attempt: false if and only if an account does not exist; in numbers, who has one unit less, who one more, and that nothing else changes |
| Bank.WorkloadBank.Pay | grading/workload.hpp:266-273 | in numbers, the balances at the two addresses afterwards, also when they are the same, and that no other balance changes |
| Bank.WorkloadBank.FindLast | grading/workload.hpp:187-195 | the walk ends on the last segment with the number of all accounts |
| Bank.WorkloadBank.DestroyLast | grading/workload.hpp:196-210 | the list afterwards represents the ledger without its last account |
| Bank.WorkloadBank.CreateLast | grading/workload.hpp:211-219 | the list afterwards represents the ledger with one more account |
| Bank.WorkloadBank.AllocTx | grading/workload.hpp:186-227 | the list stays well formed; with more accounts than the trigger and more than two the last one is gone, otherwise one with the initial balance has been appended, and the parities make up for it |
| Barriers.StepKeeps | grading/common.hpp:317-331 | every atomic operation keeps the counting invariant, and only the store of the enter mode ends a round |
| BarrierRuns.RunInv | grading/common.hpp:317-331 | the counting invariant holds in every state of every run |
| Barriers.NeverUnderflows | grading/common.hpp:326 | the subtraction never takes the counter below zero |
| BarrierRuns.NobodyPassesEarly | grading/common.hpp:317-331 | over all runs, no thread returns from its k-th call before every thread has begun its k-th |
| BarrierRuns.PhasesApart | grading/common.hpp:326-330 | a thread in the second phase of a call means every thread is inside that same call |
| BarrierRuns.SomeoneMoves | grading/common.hpp:317-331 | while someone has not returned from a call everyone has begun, some thread can do more than spin |
| BarrierRuns.SpinsIffStill | grading/common.hpp:321-329 | an operation is counted as a spin if and only if it changes nothing |
| BarrierRuns.ScheduleBound | grading/common.hpp:317-331 | however such moves are chosen there are at most three per thread |
| BarrierRuns.RoundCompletes | grading/common.hpp:317-331 | and when none is left everyone has returned |
| BarrierRuns.Barrier.constructor | grading/common.hpp:313 | a new barrier is idle, with counter 0 in the enter mode |
| BarrierRuns.Barrier.Advance | grading/common.hpp:317-331 | each atomic operation of a thread, in place, is the step of the machine and keeps the invariant |
| RoundSteps.StepKeeps | grading/grading.cpp:72-138 | every atomic operation of master and workers keeps the phase invariant |
| RoundRuns.RunInv | grading/grading.cpp:72-138 | the phase invariant holds in every state of every run |
| RoundRuns.RoundsApart | grading/grading.cpp:102-121 | no worker starts its k-th body before all have arrived for it, and none arrives for the next round before all have finished |
| RoundRuns.NobodyMissesTheStart | grading/grading.cpp:115-120 | once some worker has started a body, every worker still waiting to begins its own with its next operation |
| RoundProgress.SpinsIffStill | grading/grading.cpp:102-121 | a step is counted as a spin if and only if it changes nothing |
| RoundRuns.CounterIsClear | grading/grading.cpp:111-133 | the counter is zero again when bodies start and once they have ended |
| RoundRuns.VerdictIsRight | grading/grading.cpp:85-98 | master_wait returns an error iff some worker reported one in that round, and one that was reported; its last branch is never taken, and it throws exactly when its time limit ran out |
| RoundRuns.SomeoneMoves | grading/grading.cpp:72-138 | somebody can do more than spin exactly until it is over: the master has joined and every worker is gone, or it gave up and the round has ended |
| RoundProgress.MoveShrinksWork | grading/grading.cpp:72-138 | every step of a round other than a spin lowers a measure, whoever takes it |
| RoundProgress.ScheduleBound | grading/grading.cpp:72-138 | so however such steps are chosen there are at most twelve per worker and three of the master |
| RoundProgress.RoundCompletes | grading/grading.cpp:72-138 | and when none is left the round is over: everyone has begun and finished its body and is back or gone, and the master has its verdict, has given up or has seen everyone off |
| RoundProgress.OneBodyPerRound | grading/grading.cpp:102-138 | whenever a round is over every worker has ended exactly one body for each time the master opened one |
| RoundVerdicts.VerdictOfSteps | grading/grading.cpp:85-131 | counted over the steps: master_wait returned an error if and only if some body has ended with one since the round was opened, and then the message of such a one |
| RoundVerdicts.LastStoreWins | grading/grading.cpp:127-130 | and that message is the one stored last in the round, by the worker whose body ended with it |
| RoundVerdicts.ThrowersGo | grading/grading.cpp:163-188 | a worker whose body has thrown never comes back for another round, and nobody else goes before the master has told everyone to |
| RoundSteps.JudgedRight | grading/grading.cpp:126-134 | the last worker stores Fail exactly if an error was reported in this round |
| RoundSync.Sync.constructor | grading/grading.cpp:68 | a new object is done, with nobody ready |
| RoundSync.Sync.MasterNotify | grading/grading.cpp:72-75 | opens the next round |
| RoundSync.Sync.MasterJoin | grading/grading.cpp:78-80 | tells every worker to leave |
| RoundSync.Sync.MasterWait | grading/grading.cpp:85-98 | takes the latch, or gives up when the time limit runs out first; reads the status, and the message after a failure |
| RoundSync.Sync.WorkerWait | grading/grading.cpp:102-122 | each atomic operation of worker_wait, in place, is the step of the machine |
| RoundSync.Sync.WorkerNotify | grading/grading.cpp:126-131 | each atomic operation of worker_notify up to counting oneself out |
| RoundSync.Sync.EndRound | grading/grading.cpp:132-137 | what only the last worker out does |
| RoundSync.Sync.Take | grading/grading.cpp:72-138 | any operation of any thread keeps the invariant |

## Left out

- Objects.DualStm.Read: ends where `read` has its answer; the departure that follows a refusal is `Batching.Batcher.Leave`, a step of its own in the protocol, and `Abstraction.Leave` says what it does.
- Objects.DualStm.Write: as for a read.
- Batching.Batcher.Enter: returns the thread that has to wait instead of blocking; waking is `WakeAll`, and the loop that waits for it is part of the schedule, not of the model.
- Index.LookupBelow: requires that some segment end above the address, because the code reads the map entry without testing for the end; an address above every shared segment is outside the model.
- Bank.WorkloadBank.ShortTx: describes one attempt on the memory; that a retry would start from the account numbers the failed attempt has already counted down is not modelled.
- Bank.WorkloadBank.AllocTx: the address of a new segment is a parameter, never 0 and never in use, which is what `RealTime.NeverReused` proves of the memory; the bank runs on a map of segments, not on the words of the memory.
- Weak memory orderings, fences, and the insides of mutexes, condition variables and the latch: each locked section or atomic operation is one step.
- Wrap-around of `size_t` and of balances: addresses, counters and balances are unbounded.
- Deletion of words, segments and transactions, the buffer leaked by a failed write, and destructor order: deletion is removal from the maps.
- `DualStm::begin` and `DualStm::end`, which forward to the batcher; `end` returns the negated abort flag.
- The pointer casts and forwarding of `321215/tm.cpp`, the debugging output, and the exceptions of debugging builds other than those named above.
- Commits.EpochCommits: one direction only, of single epochs; the other, on what members an epoch has, is in `Crowds.EpochCanFailIff`. Whether a given crowded epoch commits someone depends on the interleaving.
- Abstraction.ReadWord: the steps on objects are related to the protocol's one at a time; a whole run on objects, whose threads interleave, is not a method.
- Random choices, timing, dynamic loading and the check workload of the grading program.
- `reference/`, `template/`, `sync-examples/` and `playground/`: a global lock, an empty skeleton and teaching snippets.
