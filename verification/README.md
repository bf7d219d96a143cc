# DropBeam: a model of replication without a server

DropBeam keeps a user's own devices in step by pairwise exchange. This project models the
logic that has to agree across devices, in Dafny 4.11, and proves what it promises.
`dafny verify dfyconfig.toml` checks all of it.

## What is modelled

**The account book** (`src-tauri/src/account.rs`). Each device keeps link times, removal
times, signed vouchers and signed removals; a device is a member when a chain of vouchers
reaches this one through devices not removed.

- `vouchers.dfy`, `ledger.dfy`: the stamps, a voucher list, membership as reachability and as
  a least fixpoint.
- `merge_proofs.dfy`, `merge_limits.dfy`, `merge_fitting.dfy`, `merge_crowding.dfy`,
  `merge_losses.dfy`, `merge_examples.dfy`: merging vouchers as any sequence of accepted stamps,
  what every run brings, that the order does not matter where there is room, exactly when the
  loop stops, when a full list costs members, and runs of the program that end there.
- `book_ops.dfy`, `book_runs.dfy`, `book_genuine.dfy`, `decisions.dfy`: the other steps, the
  invariants of every run, signatures included, which decision wins, and how relinks and
  removals reach other devices.
- `book.dfy`: the class with its maps updated in place and the loops over them; a map is
  walked in any order.

**Messages and threads** (`src-tauri/src/chat.rs`).

- `messages.dfy`, `convergence.dfy`, `replicas.dfy`: one message, its clocks, the merge of two
  copies as a join, and strong eventual consistency for any number of devices.
- `threads.dfy`, `slotting.dfy`, `fold_laws.dfy`: a sorted bounded thread, storing and undoing,
  slotting messages of other devices in by time, and folding two threads of a person into one.
- `exchange.dfy`, `fingerprints.dfy`, `window.dfy`, `one_exchange.dfy`, `budget_rounds.dfy`,
  `planning.dfy`, `sync_round.dfy`: digests, the budget, when two copies come to one fingerprint,
  one exchange of a conversation, any number of budgeted ones, and one round over all of them.
- `delivery.dfy`, `delivery_laws.dfy`, `event_laws.dfy`, `outbox_bound.dfy`: the status machine
  across devices, what each event does told by statuses, and when a message leaves an outbox.
- `chat_store.dfy`, `content_laws.dfy`, `merge_counts.dfy`: the store as a class, what changes to
  stored messages touch, and what the counts of a merge mean.
- `ops.dfy`, `ops_meaning.dfy`: the queue of offline changes and what coalescing it means.

**The smaller cores.** `block.dfy` and `block_file.dfy` (`src-tauri/src/block.rs`);
`gate.dfy`, the refusal gate and the places for running commands
(`src-tauri/src/agent_exec.rs`); `winargs.dfy`, Windows argument quoting and its reader
(`src-tauri/src/background_host.rs`); `text.dfy`, `ipkey.dfy` and `ip_spellings.dfy`, the
rate-limit key that `diagnostics-worker/worker.js` and `push-worker/worker.js` share.
`common.dfy` and `sorting.dfy` are used throughout.

## How it is modelled

- Code that updates maps, vectors or fields in place is a class or a method with loops, tied
  by its `ensures` to a function on values; the lemmas are about those functions. A walk over
  a hash map picks any remaining key.
- 64-bit clocks and counters are numbers up to the 64-bit maximum, with saturating or wrapping
  addition as in the code; the 32-bit counters of the gate wrap.
- The clock is an argument. A disk write is an argument that says whether it succeeded, where
  the code looks at the result. The merge of vouchers, which need not end, is given a number of
  passes and says whether it ended within them.
- A signature is valid exactly when the named signer made it over that account, device and
  time. Digests and hashes are injective.

## Where the code falls short of what it says

Each has a lemma at an input that fails, and one with the exact condition.

- Merging vouchers does not stop when an acceptable stamp is dated past the clamp, because the
  stored time is clamped and the one compared is not (`MergeExamples.OutOfClampExample`,
  `MergeLimits.StopsExactlyWhenInClamp`), nor when a list has no place for all that is offered
  and all that stands before it (`MergeExamples.CrowdedExample`,
  `MergeFitting.StopsExactlyWhenAllFit`, `MergeCrowding.StopsExactlyWhenUncrowded`).
- A voucher that overflows a full list can cost members their place
  (`MergeExamples.LosesMembersExample`, `MergeLosses.AcceptKeepsMembersExactly`).
- Two copies edited at the same stamp keep different texts
  (`Convergence.EqualStampsKeepApart`, `Convergence.MergeCommutesExactly`).
- An unsend that meets a copy with clocks it did not know, or an unsend at another time, leaves two
  fingerprints after every exchange, so both copies stay due in every round
  (`Fingerprints.UnsendMeetsReactionExample`, `Fingerprints.TombstonesApartExample`,
  `Fingerprints.PrintsMeetExactly`, `OneExchange.SecondExchangeIsQuiet`).
- A waiting message can be pushed past the bound of a thread by newer ones from another device
  and then is sent by nobody (`OutboxBound.WaitingMessageIsLost`,
  `OutboxBound.SyncEmptiesOutboxExactly`).
- A reaction queued though the peer already shows it, and then taken back, cancels out and the
  peer keeps it (`OpsMeaning.RepeatedReactionIsLost`, `OpsMeaning.CoalescingIsExact`); an unsend
  of the peer's own message is refused but replaces the reaction queued before it
  (`OpsMeaning.SweptReactionIsLost`); a link preview can survive the edit that dropped it
  (`OpsMeaning.PreviewSurvives`, `OpsMeaning.CoalescedPreview`).
- The note of a file that waited on a server is stored with its number as it came, so one at
  the largest number leaves no later one (`Threads.LargestNumberSticks`, `Threads.UncappedNumberSticks`).
- A plain IPv4 address written with leading zeros has a key of its own
  (`IpSpellings.LeadingZeroExample`, `IpSpellings.MappedMeetsPlainExactly`).

## At the edges

Exact conditions no ordinary run meets.

- A relink cannot undo a removal at the last 64-bit time (`Decisions.RelinkIsSeenHere`), and an
  unblock cannot undo a block there (`BlockList.LastUnblockIsLost`,
  `BlockList.DecisionStandsExactly`); the clamp lets such a time in only when the clock itself
  is within ten years of it. The revision counter wraps there (`Replicas.BumpIsNewer`).
- A receiver whose clock is ten years behind a removal clamps it and its relink to one time
  (`Decisions.RelinkCutExample`); `Decisions.DecidedByLatest` says what decides in general.
- The undo of a failed durable write is exact unless a full thread meets a message that sorts
  before all of it (`Threads.UndoRestoresExactly`). Its one caller numbers the message by the
  thread's clock (`src-tauri/src/iroh_net.rs:1512` and `1569`), and then it is always exact
  (`Threads.StampedUndoRestores`).

## Model

| member | source | states |
|---|---|---|
| `Vouchers.AddToKeepsShape` | src-tauri/src/account.rs:328-335 | adding a voucher leaves a nonempty list of at most eight, newest first, one per signer, holding only the new voucher and those of other signers |
| `Vouchers.AddToWithRoom` | src-tauri/src/account.rs:328-335 | with at most eight signers nothing is lost: the list is exactly the new voucher and those of other signers |
| `Vouchers.AddToKeepsNewest` | src-tauri/src/account.rs:332-334 | only a full list drops a voucher, and then none it keeps is older |
| `Ledger.MembersIsLeastFixpoint` | src-tauri/src/account.rs:267-279 | the members are exactly the devices a chain of vouchers reaches from this one through devices not removed, and the smallest set closed under vouching |
| `Ledger.MembershipGrows` | src-tauri/src/account.rs:261-279 | more vouchers and fewer removals never cost a member its place |
| `Ledger.RemovedIsOut` | src-tauri/src/account.rs:255-266 | a removed device is no member; before vouchers everyone else is, and after them whoever a chain reaches |
| `Ledger.SameRecordsSameMembers` | src-tauri/src/account.rs:261-279 | two devices that keep the same link times, removals and vouchers, each a member for the other, have the same members |
| `Ledger.RemovalLeavesChainsAround` | src-tauri/src/account.rs:255-279 | once a device is out, the members are exactly those some chain reaches without touching it |
| `MergeProofs.RunBrings` | src-tauri/src/account.rs:300-327 | in every run, overflowing lists and absurd times included, each voucher is an old one or a genuine offered one of a signer in the smallest circle, stored at its clamped time, and link times rise only to such stamps |
| `MergeProofs.RunFollows` | src-tauri/src/account.rs:300-327 | with at most eight signers a device and acceptable stamps within the clamp, in any order of acceptances no old voucher is lost except to a newer one of its signer, every new one was genuinely offered, and link times only rise to stamps accepted |
| `MergeProofs.MergeOrderDoesNotMatter` | src-tauri/src/account.rs:300-327 | with at most eight signers a device and acceptable stamps within the clamp, two merges of the same vouchers that ran to their end, walking the maps in any order, leave the same link times, vouchers and pending devices |
| `MergeProofs.MergeKeepsMembers` | src-tauri/src/account.rs:300-327 | with at most eight signers a device and acceptable stamps within the clamp, no merge of vouchers loses a member |
| `MergeProofs.RunClearsPending` | src-tauri/src/account.rs:321-322 | in every run whatever, a device stops waiting for approval exactly when a voucher for it is accepted |
| `MergeLimits.MergeAdmitsExactly` | src-tauri/src/account.rs:300-327 | with at most eight signers a device and acceptable stamps within the clamp, the devices trusted after a merge are exactly the smallest circle around those trusted before that is closed under stored and genuinely signed offered vouchers |
| `MergeLimits.MergeAdmitsNoMore` | src-tauri/src/account.rs:300-327 | no run whatever trusts anyone outside that circle |
| `MergeLimits.SettledRunsAreEmpty` | src-tauri/src/account.rs:300-327 | merging the same vouchers again accepts nothing |
| `MergeLimits.StrangersChangeNothing` | src-tauri/src/account.rs:313-314 | vouchers signed only by strangers leave the book as it was, however the strangers vouch for each other |
| `MergeLimits.NewMembersHaveChains` | src-tauri/src/account.rs:300-327 | every member after any run, whatever the batch, has a chain of vouchers from this device, each stored before or offered with a genuine signature |
| `MergeLimits.AcceptingMakesProgress` | src-tauri/src/account.rs:309-323 | an acceptance within the clamp, into a list with room for its signer, lowers the number of offered stamps not yet covered |
| `MergeLimits.StopsExactlyWhenInClamp` | src-tauri/src/account.rs:309-326 | where no list overflows with acceptable signers, the merge loop can reach its end if and only if no stamp it would have to accept is dated past the clamp |
| `MergeExamples.OutOfClampExample` | src-tauri/src/account.rs:309-316 | in a book just begun, one stamp signed by this device a millisecond past the clamp keeps the loop from ever stopping |
| `MergeCrowding.StopsExactlyWhenUncrowded` | src-tauri/src/account.rs:328-335 | a stamp the loop would accept, within the clamp and offered alone, lets the loop stop if and only if it does not meet a full list of other signers' vouchers all at least as new |
| `MergeCrowding.CrowdedStampNeverSettles` | src-tauri/src/account.rs:309-335 | in any batch, once such a stamp is its signer's newest and meets such a list, no run stops while the signer is trusted; for this device's own stamps none stops at all |
| `MergeFitting.StopsExactlyWhenAllFit` | src-tauri/src/account.rs:303-335 | for any batch and lists of any length, where the signers that count stay trusted along lists that cannot overflow, the loop can stop if and only if no stamp that counts is past the clamp and each list has places for the newest voucher of every such signer and for the old vouchers that stand before one of those |
| `MergeFitting.RoomFits` | src-tauri/src/account.rs:303-335 | with room in every list both conditions hold, and the clamp alone decides |
| `MergeExamples.CrowdedExample` | src-tauri/src/account.rs:309-335 | at the end of a run of the program, this device's own voucher comes back to a list of eight newer ones: no merge of it stops |
| `MergeLosses.AcceptKeepsMembersExactly` | src-tauri/src/account.rs:316-335 | one acceptance, whatever it cuts off, keeps every member if and only if its device was none, is this device, or is still vouched for by someone reached without it |
| `MergeExamples.LosesMembersExample` | src-tauri/src/account.rs:300-335 | from a book a run reaches, one whole merge of a genuine batch, to where it stops, pushes this device's own voucher out of a list: a member is lost with everyone behind it, and vouching here brings nobody back |
| `BookOps.RemovalsAreSound` | src-tauri/src/account.rs:282-296 | in any walk order whoever is newly out was removed by a genuine stamp of itself, this device, or a device that was a member before; nobody becomes a member |
| `BookOps.RemovalsAreTaken` | src-tauri/src/account.rs:288-293 | after any walk what is kept of a device's removal is the old one or the believed stamp as it was offered, only a time past the clamp cut |
| `BookOps.LeftLaw` | src-tauri/src/account.rs:690-716 | a device that says it left is out exactly if it was or the notice is about the link known here; its removal is past that link, its signed word is kept if genuine, and nothing else changes |
| `BookOps.MembershipShrinks` | src-tauri/src/account.rs:282-296 | one accepted removal leaves no one a member who was not |
| `BookRuns.StepKeepsSound` | src-tauri/src/account.rs:300-384 | each step (link, ensure, merge, approve, remove, await, leave) keeps every stored voucher signed by this device or a vouched-for one, dated within the link time, one per signer |
| `BookRuns.RunsAreSound` | src-tauri/src/account.rs:345-384 | that invariant holds after every run of such steps |
| `BookRuns.EnsureVouches` | src-tauri/src/account.rs:366-383 | vouching leaves each linked device that is in with a voucher by this device at its link time exactly if nobody had vouched for it or this device had; nothing else is vouched for, and nothing up to date again |
| `BookRuns.EnsureAdmitsExactly` | src-tauri/src/account.rs:366-384 | while this device is not removed, vouching for what is due adds to the members exactly the devices linked here, not removed, that had no voucher at all |
| `BookRuns.EnsureNeverRevives` | src-tauri/src/account.rs:366-376 | at the end of any run, a device that is out and has vouchers is not brought back |
| `BookRuns.UpgradeKeepsTrusted` | src-tauri/src/account.rs:357-365 | upgrading an old book makes members of exactly the devices it trusted and had not removed |
| `BookGenuine.RunsAreGenuine` | src-tauri/src/account.rs:282-384 | in every run of one account's book each stored voucher and removal carries the signature it was made with, unless the clamp cut its time; at most sixteen devices wait for approval, never this one |
| `BookGenuine.RelinkTravels` | src-tauri/src/account.rs:597-605 | a relink reaches other devices: linked again, vouched for and offered, the device is in and a member where the merge stops, if its relinker is in there and no newer removal is known |
| `BookGenuine.RemovalTravels` | src-tauri/src/account.rs:1695-1708 | a removal reaches other devices: where its maker is in and nothing newer is known, the device is out after the walk, unless the clamp cuts the time |
| `BookGenuine.StampedPastAll` | src-tauri/src/account.rs:597-605 | a link is stamped past every removal known, a removal past every link, neither before the clock, and the removal is signed at its own time |
| `BookGenuine.ToldIsBelieved` | src-tauri/src/account.rs:1397-1411 | a removed device told with a genuine removal believes it and is out in its own book, if it counts the signer a member and knows nothing newer |
| `Decisions.RelinkWins` | src-tauri/src/account.rs:597-605 | a relink made after seeing a removal puts the device back wherever both arrive, in any order, if the receiver's clamp leaves the link time uncut and the removal is not at the last 64-bit time |
| `Decisions.RelinkIsSeenHere` | src-tauri/src/account.rs:597-605 | after a relink the device is still out if and only if its removal is at the last 64-bit time |
| `Decisions.DecidedByLatest` | src-tauri/src/account.rs:255-257 | whatever arrives in whatever order and whatever the clocks read, a device is out if and only if some removal known or heard is no older than every link known or heard, each as the clamp lets it in |
| `Decisions.OnlyAbsurdTimesAreCut` | src-tauri/src/account.rs:57-67 | a time comes in as it is if and only if it is at most ten years ahead of the clock |
| `Decisions.RelinkCutExample` | src-tauri/src/account.rs:63-67 | a receiver whose clock reads 0 clamps a removal and its relink to one time, and the device stays out |
| `Decisions.RemovalWins` | src-tauri/src/account.rs:1695-1702 | a removal made after seeing a link takes the device out wherever both arrive, in any order |
| `Decisions.RemovalIsSeenHere` | src-tauri/src/account.rs:1695-1708 | after removing a device here, the members are those reached by a chain that avoids it |
| `Decisions.ApprovalAdmits` | src-tauri/src/account.rs:1712-1725 | an approved device is a member at once if and only if its removal is not pinned |
| `AccountBook.Book.ListMembers` | src-tauri/src/account.rs:267-279 | the loop over the vouchers, in any map order, stops and returns exactly the members |
| `AccountBook.Book.AddVoucher` | src-tauri/src/account.rs:328-335 | only this device's list changes; a list with one voucher per signer takes the new one in: at most eight, newest first, one per signer, and only a full list drops anything, never something newer than what it keeps |
| `AccountBook.Book.TakeVoucher` | src-tauri/src/account.rs:305-324 | a stamp is accepted if and only if it is new, from a trusted signer and genuine; otherwise nothing changes |
| `AccountBook.Book.OnePass` | src-tauri/src/account.rs:303-325 | a pass in any map order accepts only eligible stamps, and one that accepts none leaves nothing eligible |
| `AccountBook.Book.MergeVouchers` | src-tauri/src/account.rs:300-327 | in any walk order the book is one a run reaches; the loop has stopped only where no offered stamp is eligible, changes nothing when repeated, and stops within as many passes as stamps are outstanding when there is room and none is past the clamp |
| `AccountBook.Book.MergeRemovals` | src-tauri/src/account.rs:282-296 | one walk in any order: what is kept of each device's removal is as it was or the believed stamp as offered, only a time past the clamp cut; whatever stays believable afterwards was dated past the clamp |
| `AccountBook.Book.EnsureVouchers` | src-tauri/src/account.rs:345-384 | upgraded in any order; afterwards a linked device that is in has this device's voucher at its link time exactly if nobody had vouched for it or this device had, so a relink renews it, and no other voucher is made |
| `AccountBook.Book.MarkLinkedHere` | src-tauri/src/account.rs:597-605 | the device is in from now on unless its removal is at the last 64-bit time; the link time never falls; nobody else is removed and no member is lost |
| `AccountBook.Book.RemoveDeviceHere` | src-tauri/src/account.rs:1695-1702 | the device is out and no longer waits for approval, the members left are those reached without it, and the signed removal is valid and dated as the stored one |
| `AccountBook.Book.ApproveDeviceHere` | src-tauri/src/account.rs:1712-1724 | only a waiting device is approved; it no longer waits, and is a member at once unless its removal is at the last 64-bit time |
| `AccountBook.Book.ApplyLeftHere` | src-tauri/src/account.rs:690-716 | a leaving device is taken out exactly when its notice is about the link known here, with its signed word kept if genuine |
| `AccountBook.Book.NotePendingHere` | src-tauri/src/account.rs:1738-1746 | a device is listed for approval exactly when it is a stranger (no member, not removed, not this one) in a book in use, and waits already or fewer than sixteen do |
| `AccountBook.MergeTimesIsJoin` | src-tauri/src/account.rs:746-747 | times of removed friends merge to the least that is no earlier than ours and theirs as the clamp lets them in |
| `AccountBook.Book.Serve` | src-tauri/src/account.rs:1445-1487 | only the caller's vouchers are merged before it is judged; unless it is then a member, no removal or anything else of its is merged, and a removed caller is told with the signed removal; nothing is answered while the merge goes on, and it ends when there is room and nothing is past the clamp; a removal it tells the caller is genuine when all stored ones are |
| `Messages.MergeCopies` | src-tauri/src/chat.rs:1107-1192 | the loops over clocks and reactions compute the specified merge, older builds' copies included |
| `Convergence.ShownIsView` | src-tauri/src/chat.rs:1127-1192 | what a copy shows is a function of its view (text clock, reaction clocks, or the tombstone) |
| `Convergence.JoinIsLeastUpperBound` | src-tauri/src/chat.rs:1127-1192 | the join of two views is the least view above both |
| `Convergence.MergeIsJoin` | src-tauri/src/chat.rs:1127-1192 | merging two copies of current builds whose equal edit stamps mean equal texts joins their views |
| `Convergence.MergeStaysCurrent` | src-tauri/src/chat.rs:1127-1192 | the merge of two well-formed copies is well formed: clocks within `rev`, reactions exactly the clocks that are on |
| `Convergence.MergeCommutes` | src-tauri/src/chat.rs:1127-1192 | for copies of current builds whose equal edit stamps mean equal texts, on what is shown the merge is commutative and idempotent |
| `Convergence.MergeAssociates` | src-tauri/src/chat.rs:1127-1192 | for copies of current builds whose equal edit stamps mean equal texts, on what is shown the merge is associative |
| `Convergence.MergeCommutesExactly` | src-tauri/src/chat.rs:1146-1157 | for copies of current builds with no assumption on stamps, two live ones show the same both ways round if and only if their texts are equal, their edit stamps differ, or neither was edited and one is newer |
| `Convergence.EqualStampsKeepApart` | src-tauri/src/chat.rs:1150-1162 | two copies edited at 5 with different texts keep them through every merge |
| `Convergence.LegacyReads` | src-tauri/src/chat.rs:1107-1126 | against a copy with clocks, one whose build kept none is read as of its last change: its edit and its reactions as made then, those it lacks as taken off then |
| `Convergence.ClocklessCommutes` | src-tauri/src/chat.rs:1127-1192 | two live copies without clocks changed at different times show the same both ways round, as the one changed last |
| `Convergence.MergedContent` | src-tauri/src/chat.rs:1130-1162 | a merge unsends exactly when a copy was unsent and then empties the message; otherwise text, edited mark and preview come together from the copy with the newer text, and files, picture and path stay this device's own |
| `Convergence.ChangesKeepEmptied` | src-tauri/src/chat.rs:596-694 | no change fills a tombstone again, an unsent message cannot be edited, and an unsend by its author empties it |
| `Replicas.BumpIsNewer` | src-tauri/src/chat.rs:931-933 | a local change is stamped past the last one if and only if that was not the last 64-bit number, and at the clock unless the copy is ahead of it |
| `Replicas.LaterEditWins` | src-tauri/src/chat.rs:641-660 | of two edits of one copy on two devices the later by the clocks is shown on both |
| `Replicas.LocalReactionWins` | src-tauri/src/chat.rs:596-637 | a reaction wins over every state its copy had seen, whichever side merges |
| `Replicas.LocalEditWins` | src-tauri/src/chat.rs:641-694 | so does an edit or an unsend |
| `Replicas.RunsStayGood` | src-tauri/src/chat.rs:596-694 | in every run of changes and merges on any number of devices, `rev` is at least every clock, the reactions of a live copy are exactly the clocks that are on, and each copy is the join of the changes it has seen |
| `Replicas.SameChangesSameMessage` | src-tauri/src/chat.rs:1127-1192 | strong eventual consistency: two devices the same changes reached show the same message, in whatever order and by whatever route |
| `Replicas.UnsendSticks` | src-tauri/src/chat.rs:1130-1144 | once a device shows the tombstone it does at every later point of the run |
| `Threads.SortIsSorted` | src-tauri/src/chat.rs:235-237 | the stable sort by number, time and id sorts |
| `Threads.OneSorting` | src-tauri/src/chat.rs:235-237 | where no two messages share number, time and id there is one sorted order of them |
| `Threads.AppendKeepsValid` | src-tauri/src/chat.rs:322-343 | storing a message keeps the thread sorted, its keys unique and its length bounded |
| `Threads.AppendKeepsNewest` | src-tauri/src/chat.rs:335-343 | a stored message is added to the thread, and when that is full exactly the one that sorts first is dropped |
| `Threads.UndoRestoresExactly` | src-tauri/src/chat.rs:336-351 | undoing a failed durable write restores the thread exactly, if and only if it was not full with the message sorting before all of it |
| `Threads.StampedSortsLast` | src-tauri/src/chat.rs:585-591 | a message numbered by this clock, or an incoming number bounded by it, sorts after all stored ones |
| `Threads.StampedUndoRestores` | src-tauri/src/chat.rs:344-351 | so undoing its failed write always restores the thread, even when it was trimmed |
| `Threads.NumbersStayBounded` | src-tauri/src/chat.rs:49-51 | after n stored messages, each numbered by this clock or bounded by it, no number is past 1,000,001 times n, however many syncs and edits came between |
| `Threads.UncappedNumberSticks` | src-tauri/src/iroh_net.rs:1657 | a number taken as it came leaves room for a later one if and only if it is not the largest 64-bit number, in a full thread too |
| `Threads.LargestNumberSticks` | src-tauri/src/iroh_net.rs:1657 | a note with the largest number, stored first of all: the next message gets that number again |
| `Slotting.SyncKeepsThread` | src-tauri/src/chat.rs:1000-1051 | any merged batch keeps the thread sorted, unique, bounded, its old messages in their order, and in time order if it was |
| `Slotting.FoldKeepsThread` | src-tauri/src/chat.rs:1604-1629 | the same for folding one's own second thread of a person in |
| `Slotting.NewestAgree` | src-tauri/src/chat.rs:972-980 | two threads in time order that hold each other's newest n messages list them identically |
| `Slotting.SameMessagesSameListing` | src-tauri/src/chat.rs:1000-1051 | two such devices that hold the same messages with distinct times list them identically |
| `Exchange.TakenIsNewest` | src-tauri/src/account.rs:1189-1197 | what is sent is a newest-first front piece within the budget, whole when it fits, and not empty when its first message fits |
| `Fingerprints.ExchangedPrints` | src-tauri/src/chat.rs:1027-1034 | one exchange of two copies of a message, live or unsent, content and delivery, leaves one version on both, and one fingerprint if and only if the delivery agrees for a friend's message and, where a copy was unsent, both have the same reaction clocks and edited mark and no later text than an unsent one |
| `Fingerprints.PrintsMeetExactly` | src-tauri/src/chat.rs:1107-1144 | after any number of exchanges, whoever dials, two copies have one fingerprint if and only if they met so at the start |
| `Fingerprints.TombstonesApartExample` | src-tauri/src/chat.rs:1130-1144 | unsends at 2 and at 1 have two fingerprints after any number of exchanges |
| `Fingerprints.UnsendMeetsReactionExample` | src-tauri/src/chat.rs:1130-1144 | so have a copy with a reaction and one unsent elsewhere without knowing of it |
| `Fingerprints.PlainUnsendMeets` | src-tauri/src/chat.rs:669-694 | an unsend of just what the other device shows has one fingerprint with it after any number of exchanges |
| `Fingerprints.DeliveryMarksMeet` | src-tauri/src/chat.rs:1028-1030 | of two unsent copies of our own message, one delivered, any number of exchanges makes one fingerprint |
| `Window.NewestByRank` | src-tauri/src/chat.rs:978-980 | a message is in the window exactly when fewer than n times are newer |
| `Window.RecentKept` | src-tauri/src/chat.rs:1040-1045 | sorting and trimming keep every message recent among all the times either device knows |
| `Window.MergedRecent` | src-tauri/src/chat.rs:1000-1051 | a batch leaves a recent message alone, joins it with the copy in the batch, or adds it |
| `OneExchange.ExchangeConverges` | src-tauri/src/account.rs:1384-1441 | one exchange with room, between threads in time order with distinct times, leaves the newest thousand messages of both the same: same keys, same order, each shown the same, and the live ones of the same delivery with equal fingerprints |
| `OneExchange.SecondExchangeIsQuiet` | src-tauri/src/account.rs:1153-1164 | after one exchange with room the digests are equal, and the next changes nothing, if and only if the copies of each recent message met before it |
| `BudgetRounds.RoundsSettle` | src-tauri/src/account.rs:1167-1221 | whatever the budgets and whoever dials, as long as each round has room for the newest message due each way, after as many rounds as recent messages differed the digests are equal, if and only if the copies of each recent message met at the start |
| `Planning.DueExactly` | src-tauri/src/account.rs:1177-1179 | messages are due exactly when the digests differ on a key of ours |
| `Planning.Plan` | src-tauri/src/account.rs:1167-1202 | in any order of conversations: asks for exactly the keys that differ, sends newest first within the budget with at most one conversation cut, moves something whenever each due message fits, and everything when all of it fits |
| `Planning.WantedMessages` | src-tauri/src/account.rs:1204-1222 | answers every conversation asked for, newest first within the budget, moves something whenever each message fits, and everything when all of it fits |
| `SyncRound.DifferingLists` | src-tauri/src/account.rs:1153-1164 | the lists of exactly the known conversations whose summary differs |
| `SyncRound.RoundIsExchanges` | src-tauri/src/account.rs:1384-1441 | over all conversations at once a round with room does to each the exchange of that conversation |
| `SyncRound.RoundConverges` | src-tauri/src/account.rs:1384-1441 | so after such a round the newest messages of each are the same on both devices |
| `SyncRound.ExchangeChats` | src-tauri/src/account.rs:1417-1441 | summaries, lists, messages and answer, run on two stores with room, leave both with every due batch merged |
| `Delivery.ReportIsSafe` | src-tauri/src/chat.rs:405-435 | a delivery report never lowers progress, and only its own message can become this device's to send |
| `DeliveryLaws.ReportLaw` | src-tauri/src/chat.rs:405-435 | a report changes the message it names and no other: news of delivery always counts, anything else counts while this device has the message in hand, and nothing takes back what a server has or the peer got |
| `DeliveryLaws.HeldReturnsByGivingUp` | src-tauri/src/chat.rs:412-427 | in every run over any number of devices a message a server holds is in the outbox again only when the server gives up on it |
| `DeliveryLaws.DeliveredStaysOut` | src-tauri/src/chat.rs:412-427 | a message delivered or read is in no outbox after any event |
| `EventLaws.EventLaw` | src-tauri/src/chat.rs:403-472 | which messages wait after each event but a sync, exactly, told by keys and statuses |
| `EventLaws.EventIsShown` | src-tauri/src/chat.rs:403-719 | what each event shows on the message it is about: stored, reported, held, given up with the note, read, unsent, or delivered at least as far as the synced copy |
| `Delivery.HoldIsSafe` | src-tauri/src/chat.rs:439-453 | a server taking a message never lowers progress and makes nothing newly this device's to deliver |
| `Delivery.MergedStatus` | src-tauri/src/chat.rs:1028-1034 | a merged copy of our message has the furthest delivery of the two, and waits only if it waited here and the other was neither delivered nor unsent |
| `OutboxBound.SyncEmptiesOutboxExactly` | src-tauri/src/chat.rs:1009-1035 | for threads in time order with distinct times, a merged batch keeps a waiting message in its outbox if and only if fewer than two thousand messages here or in the batch are newer and no copy in the batch was delivered, read or unsent |
| `OutboxBound.WaitingMessageIsLost` | src-tauri/src/chat.rs:1043-1047 | a message that waits under 1,999 newer ones is gone once one more is synced, though nobody delivered it |
| `Delivery.RunsAreOrderly` | src-tauri/src/chat.rs:403-472 | every run over any number of devices keeps thread keys unique and each undelivered message the duty of the device that wrote it |
| `Delivery.OneOutboxEach` | src-tauri/src/chat.rs:853-866 | in every reachable state a sent message is in at most one device's outbox |
| `Delivery.ProgressNeverFalls` | src-tauri/src/chat.rs:938-944 | no event ever lowers a message's delivery rank on any device |
| `ChatStore.Store.Append` | src-tauri/src/chat.rs:322-354 | refused exactly for a message there already or a second card of a transfer; stored unless it sorts before all of a full thread; a failed durable write leaves the thread as it was |
| `ChatStore.Store.NextNumber` | src-tauri/src/chat.rs:585-591 | one past the largest number of the conversation |
| `ChatStore.Store.ListOutbox` | src-tauri/src/chat.rs:853-866 | exactly our waiting messages of every conversation, in any walk order, sorted by number, time and id |
| `ChatStore.Store.MergeBatch` | src-tauri/src/chat.rs:1000-1051 | the loop over the batch computes the specified thread and counts, sorting only when something changed |
| `MergeCounts.TallyCounts` | src-tauri/src/chat.rs:1008-1045 | the count is the number of messages new or with another fingerprint, and the news are the times of the new ones the friend wrote and did not unsend |
| `ChatStore.Store.FoldThread` | src-tauri/src/chat.rs:1604-1629 | the source thread is gone; every message of either is held, its own as it was and the moved ones but for their number, unless it sorts before all of a full thread; `moved` is how many keys only the source had |
| `FoldLaws.FoldIsWell` | src-tauri/src/chat.rs:1604-1629 | nothing of either thread is lost but what a full thread has no place for, and nothing else is there |
| `ChatStore.Store.MarkRead` | src-tauri/src/chat.rs:699-719 | exactly our messages up to the time that reached the peer become read, and the count is zero exactly when none did |
| `ChatStore.Store.SetStatusOf` | src-tauri/src/chat.rs:405-435 | the message named gets the report or nothing changes, and the answer is the message as stored |
| `ChatStore.Store.SetHeldOf` | src-tauri/src/chat.rs:439-453 | only our undelivered message becomes held |
| `ChatStore.Store.SetServerFailedOf` | src-tauri/src/chat.rs:457-473 | only our message not yet delivered goes back to failed, with the note |
| `ContentLaws.ReactionLaw` | src-tauri/src/chat.rs:596-637 | a reaction is on or off as asked on the first message with the id, the others and all else as they were |
| `ContentLaws.EditLaw` | src-tauri/src/chat.rs:641-665 | an edit goes to its author's live message with the id and to no other |
| `ContentLaws.UnsendLaw` | src-tauri/src/chat.rs:670-694 | an unsend empties its author's message with the id and touches no other |
| `ChatStore.Store.React` | src-tauri/src/chat.rs:596-637 | adds or removes the reaction with its clock, and only if that changes it |
| `ChatStore.Store.EditText` | src-tauri/src/chat.rs:641-665 | edits only a live message of the named author |
| `ChatStore.Store.Unsend` | src-tauri/src/chat.rs:670-694 | leaves a tombstone of the named author's message |
| `ChatStore.UnchangedIsFinished` | src-tauri/src/chat.rs:1043-1050 | a batch that changes no fingerprint leaves nothing to sort or trim |
| `ChatStore.SamePlacesStayValid` | src-tauri/src/chat.rs:596-694 | a change in place keeps the thread valid and in time order |
| `Ops.QueueIsCanonical` | src-tauri/src/chat.rs:772-804 | the queue never holds two edits, two unsends or two of one reaction for a target, nor more than a thousand ops |
| `Ops.ShortLogsFit` | src-tauri/src/chat.rs:798-803 | a queue that ever saw at most a thousand ops never dropped one for its bound |
| `Ops.OpQueue.EnqueueOp` | src-tauri/src/chat.rs:772-804 | folds the op into the queue as specified |
| `Ops.OpQueue.AckOp` | src-tauri/src/chat.rs:807-815 | drops exactly the ops with that id |
| `Ops.OpQueue.PendingOps` | src-tauri/src/chat.rs:819-830 | drops exactly the ops at least seven days old and returns the rest sorted by time and id |
| `OpsMeaning.ApplyAllReads` | src-tauri/src/chat.rs:596-694 | what a copy shows after a list of ops: the tombstone, else the last edit and the last word on each reaction |
| `OpsMeaning.QueueSays` | src-tauri/src/chat.rs:772-804 | the queue unsends exactly what the log unsends and keeps of each reaction its last word or nothing; without an unsend it keeps the last edit |
| `OpsMeaning.CoalescingIsExact` | src-tauri/src/chat.rs:764-804 | for either side's message, sending the queue in any order shows the peer what sending every op would, if and only if each reaction no longer queued was left as the peer has it (or its author unsends the message) |
| `OpsMeaning.FlushMirrorsAuthor` | src-tauri/src/chat.rs:764-804 | when every queued reaction really toggled and every unsend was of one's own message, flushing the queue in any order leaves the peer showing what the author shows |
| `OpsMeaning.CoalescedPreview` | src-tauri/src/chat.rs:650-652 | the link preview agrees too, if and only if there was none, the message is the peer's own or is unsent, or no dropped edit lost the link that the last edit has again |
| `OpsMeaning.PreviewSurvives` | src-tauri/src/chat.rs:777-781 | an edit without a link and then one with: every op would drop the preview, the queue keeps it |
| `OpsMeaning.RepeatedReactionIsLost` | src-tauri/src/chat.rs:782-797 | a reaction sent again and then taken back cancels out of the queue though the peer shows it |
| `OpsMeaning.SweptReactionIsLost` | src-tauri/src/commands.rs:1762-1786 | an unsend of the peer's own message is refused there, but replaces the reaction queued before it |
| `BlockList.MergeIsJoin` | src-tauri/src/block.rs:225-249 | merging moves each decision to the later of the two by time, blocked over not at the same time |
| `BlockList.IdsStayShort` | src-tauri/src/block.rs:225-233 | a merge takes a new id exactly if it is not empty and at most 128 bytes long |
| `BlockList.HeardSameDecideSame` | src-tauri/src/block.rs:225-249 | devices that heard the same lists decide the same, in any order and however often |
| `BlockList.SyncedListsAgree` | src-tauri/src/block.rs:225-249 | one sync in both directions leaves the same decisions |
| `BlockList.LaterDecisionStands` | src-tauri/src/block.rs:77-79 | a decision made after seeing another stands wherever its list arrives, in any order among the rest |
| `BlockList.BlockCoversPerson` | src-tauri/src/block.rs:127-158 | blocking a person with an account blocks every device of it, known or met later, and unblocking any endpoint blocked together frees them all |
| `BlockList.BlockStands` | src-tauri/src/block.rs:139-148 | a block made knowing all the other device holds or hears blocks there too, in any order of lists |
| `BlockList.UnblockStands` | src-tauri/src/block.rs:187-201 | an unblock made so frees every endpoint of the person there, if the block was before the last 64-bit time |
| `BlockList.DecisionStandsExactly` | src-tauri/src/block.rs:77-79 | against the decision it was made on, it loses if and only if it unblocks a block at the last 64-bit time |
| `BlockList.LastUnblockIsLost` | src-tauri/src/block.rs:77-79 | an unblock of a block at the last 64-bit time is lost |
| `BlockList.UnblockClearsPerson` | src-tauri/src/block.rs:187-201 | unblocking clears exactly the records of the id and of its account, and no other account |
| `BlockList.UnblockedIsStranger` | src-tauri/src/block.rs:82-96 | afterwards an endpoint is blocked if and only if it was for a reason that is not this person |
| `BlockFile.Blocks.MergeList` | src-tauri/src/block.rs:225-249 | in any walk order the merge is the specified one, reported exactly when something changed and was saved |
| `BlockFile.Blocks.BlockEndpoints` | src-tauri/src/block.rs:139-148 | blocks every endpoint of the person, or nothing when the write fails |
| `BlockFile.Blocks.UnblockPerson` | src-tauri/src/block.rs:187-201 | unblocks the person, or nothing when the write fails |
| `BlockFile.Blocks.ListPeople` | src-tauri/src/block.rs:204-222 | newest first, one row for each blocked person with all their endpoints, the newest time and a name if any, nobody in two rows |
| `BlockList.SpaceIsWhiteSpace` | src-tauri/src/block.rs:212-216 | the characters a blank name may hold are the 25 of Unicode white space |
| `BlockList.BlankIs` | src-tauri/src/block.rs:212-216 | no name at all is blank, and a longer one if all of it is |
| `BlockFile.ListingReads` | src-tauri/src/block.rs:204-222 | newer people first, those of one time by id, and each row has a name, a record's if any has one |
| `BlockFile.UnblockClearsRow` | src-tauri/src/block.rs:187-222 | unblocking a listed row clears exactly that row, if and only if all its records name the same account |
| `Gate.RefusalGate.CheckRefusal` | src-tauri/src/agent_exec.rs:106-119 | the update in place is the specified step, 32-bit wrap-around included |
| `Gate.FewAreAnswered` | src-tauri/src/agent_exec.rs:111-116 | a refusal is answered whenever fewer than ten of its peer came in the minute before it |
| `Gate.QuietIsRecorded` | src-tauri/src/agent_exec.rs:108-119 | it is recorded, leaving nothing pending, whenever none of its peer came in that minute and fewer than twenty records were made in it |
| `Gate.AnswersAreFew` | src-tauri/src/agent_exec.rs:111-116 | in any span shorter than a minute one peer gets at most twenty answers, with fewer than 2^32 refusals in any such span |
| `Gate.RecordsAreFew` | src-tauri/src/agent_exec.rs:108-118 | in any such span at most forty records are made, however many refusals there are |
| `Gate.OneRecordAMinute` | src-tauri/src/agent_exec.rs:96-98 | in any such span a peer is recorded at most once, with fewer than 2^32 refusals in any such span |
| `Gate.RefusalsAreCounted` | src-tauri/src/agent_exec.rs:106-119 | in every run every refusal of a peer is in a record, pending, or was forgotten by a purge, short only by whole wraps of the 32-bit counter, and with fewer than 2^32 refusals by nothing |
| `Gate.NothingForgotten` | src-tauri/src/agent_exec.rs:107 | while the map stays within its bound no refusal is forgotten |
| `Gate.Sessions.Take` | src-tauri/src/agent_exec.rs:80-87 | a place is refused if and only if the device holds four |
| `Gate.Sessions.Drop` | src-tauri/src/agent_exec.rs:88-93 | frees exactly that place |
| `WinArgs.WinArg` | src-tauri/src/background_host.rs:45-69 | the loop computes the specified quoting |
| `WinArgs.ParseWinArgs` | src-tauri/src/background_host.rs:340-368 | the index loop computes the specified reading |
| `WinArgs.ArgumentsRoundTrip` | src-tauri/src/background_host.rs:45-69 | for every list of strings, quoting each, joining with single blanks and reading the line gives back exactly the list |
| `WinArgs.TaskGetsItsConfig` | src-tauri/src/background_host.rs:81-83 | the startup task is given its two switches and exactly its config folder |
| `IpKeys.SpaceIsTrimmed` | diagnostics-worker/worker.js:359 | the characters trimmed are the 25 a script trims |
| `IpKeys.LowerIsAscii` | diagnostics-worker/worker.js:359 | the 26 capitals become their small letters, 32 further on |
| `IpKeys.UnbracketIs` | diagnostics-worker/worker.js:361 | an address in brackets is read without them |
| `IpKeys.SpellingKey` | diagnostics-worker/worker.js:358-397 | every spelling of an IPv6 address (section 2.2 of RFC 4291) gives the one key of the address |
| `IpKeys.PlainKeyExactly` | diagnostics-worker/worker.js:364-369 | four numbers with dots have a key of their own if and only if none is past 255, and otherwise the shared one |
| `IpSpellings.HeaderKey` | push-worker/worker.js:312-351 | so does every header that dresses it in space, brackets, upper case or a zone id |
| `IpSpellings.SpellingsShareKeyExactly` | diagnostics-worker/worker.js:386-393 | spellings of two addresses that are not IPv4-mapped share a key if and only if their first four hextets agree |
| `IpSpellings.MappedMeetsPlainExactly` | diagnostics-worker/worker.js:364-391 | an IPv4-mapped address (section 2.5.5.2 of RFC 4291) shares the key of its plain dotted form if and only if that has no leading zeros |
| `IpSpellings.LeadingZeroExample` | diagnostics-worker/worker.js:364-391 | 1.2.3.004 has another key than 1.2.3.4, which has that of the mapped address |
| `IpSpellings.ReadExactlySpellings` | diagnostics-worker/worker.js:364-393 | anything but a plain dotted address is given a key of its own if and only if it spells an IPv6 address |

## Left out

- MergeProofs.RunFollows: needs room in every list and acceptable stamps within the clamp, and so do `MergeProofs.MergeOrderDoesNotMatter`, `MergeProofs.MergeKeepsMembers` and `MergeLimits.MergeAdmitsExactly`; without room they fail (`MergeExamples.LosesMembersExample`), and `MergeProofs.RunBrings`, `MergeLimits.MergeAdmitsNoMore` and `MergeLimits.NewMembersHaveChains` say what every run keeps.
- MergeProofs.MergeOrderDoesNotMatter: what two walks of an overflowing batch have in common is not stated beyond that.
- MergeLimits.StopsExactlyWhenInClamp: where no list overflows; `MergeFitting.StopsExactlyWhenAllFit` is for lists that do, where the signers that count stay trusted; where an overflow can cost a signer its membership, only `MergeCrowding` says when the loop goes on.
- AccountBook.Book.Serve: a book from before vouchers is upgraded by the step before, so the unsigned merge for such books (`merge_roster_times` with no vouchers) is not modelled.
- Convergence.MergeIsJoin: about copies made by current builds; for older builds' copies `Convergence.LegacyReads` says how one is read and `Convergence.ClocklessCommutes` that two agree, but no convergence of a mix is claimed; and `set_link_preview`, which raises the revision without a clock, is in no run. The same holds for `Convergence.MergeCommutes`, `Convergence.MergeAssociates` and `Convergence.MergeCommutesExactly`.
- OneExchange.ExchangeConverges: for threads in time order with distinct times and room in the budget. `BudgetRounds.RoundsSettle` needs room each way for the conversation's newest message; which conversation the shared budget reaches first depends on the walk over a map.
- Delivery.RunsAreOrderly: a delivery report comes only from a device that handed the message to delivery; the folding of a device's own two threads is not an event of these runs.
- OpsMeaning.CoalescingIsExact: for a queue that never overflowed and whose ops had not aged or reached the peer.
- Gate.AnswersAreFew: for fewer than 2^32 refusals in any span under a minute, past which the counter of a window wraps and the window starts over; the same holds for `Gate.OneRecordAMinute`.
- AccountBook.Book.MergeVouchers: reads the clock once for a whole merge; the code reads it at each stamp. The same holds for every method with one `now`.
- Order independence of merged removals: one removal may remove another's signer, so different walks can end differently.
- The fields of a message no merge looks at (size of files, reply reference, kind, the server's name) are not modelled; a friend's conversation is named by one key on both devices.
- A peer's digest list that names one message twice: the code keeps the last, the model compares pairs.
- `merge_threads`, `clear`, the chat overview, read markers, push notices and unread counts.
- Profiles, avatars, friend records, `record_friend_removed`, the log of left accounts and the removals told to friends.
- Files, locks, frames, time-outs, the network, the sync scheduler and the user interface.
- The Windows task's XML, its checks on values, COM and the registry.
- `normalizeIndex`, `writeIndex` and `bump` of the workers: capped counters and an index cut to size.
- Lower-casing in `IpKeys.Core` is for ASCII letters; other letters never become part of an address.
- Lengths of endpoint ids in `BlockList` are counted in UTF-8 from code points; lone surrogates do not occur in the source's strings.
