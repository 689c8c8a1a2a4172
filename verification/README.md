# Accounts database, verified

A Dafny model of the logic of the accounts database (`solana/accounts-db/src`), with the parts of
the bank tree it relies on and the ordering algorithm of the publishing script, and proofs of what
this logic is for. `dafny verify dfyconfig.toml` checks all of it.

What is modelled, hardest first:

- **Scans and cleans** (`ScanProtocol`, `ScanMarks`, `ScanViews`, `ScanRuns`, `ZeroPurges`, `Forks`,
  `SlotLists`, `AccountsIndexes`, `RollingBitFields`; runs in `UnboundedClean` and `ZeroPurgeRun`).
  Banks fork, freeze, are rooted and removed, accounts are written, entries move between storages and
  slots, flushes drop versions, cleans purge old versions and, in two steps, zero-lamport accounts,
  and scans read, all in atomic steps. Over every run a registered scan sees one view exactly if no
  step of three named kinds comes between, and it finds the same accounts with lamports as long as
  cleans without a bound are guarded. That old ancestors are roots, which the source's own argument
  takes for granted, is derived from the bank tree. The methods of the index object are steps of this
  system.
- **The accounts hash** (`Merkle`, `HashSlices`, `PubkeyBins`, `Dedup`, `DedupMerge`, `DedupBin`,
  `HashPipeline`). A k-way merge per pubkey bin keeps the last entry of every pubkey, and a Merkle
  root is taken over hash files without joining them, three levels at a time. The result is that of
  a reference without bins, slices or levels.
- **Ancient storages** (`NextFit`, `AncientPacking`, `ManyRefs`, `AncientSlots`). The packing walk
  is next-fit over the flat list of accounts. From this follow how full storages are, when accounts
  with other references may be moved, and that the truncation rule leaves room for fragmentation.
- **The shrink handover** (`ShrinkHandover`). Three lookups interleaved with a two-step swap and
  two-step insertions.
- **Rent partitions** (`Partitions`). Ranges, their inverse, and full coverage along a fork.
- **Account locks and the largest accounts** (`AccountLocking`, `LargestAccounts`), **paged
  iteration and duplicate removal** (`IndexIteration`, `DuplicateRemoval`), and **publishing order**
  (`PublishOrder`).

`Common`, `Search`, `KeyOrder` and `Sorting` hold what these share.

How things are represented: a pubkey is its big-endian number, so byte order is numeric order; the
hash function is a parameter on sequences of hashes; a hash file is a sequence with a capacity; a
standard library sort is a stable sort, a binary search a bisection, a binary heap a sorted
sequence. Objects the source changes in place are classes, loops are loops with invariants, and
shared state with concurrent access is a step system.

Where the code falls short of what its comments or callers suggest, the model keeps the code and the
exact condition is proved:

- `rolling_bit_field.rs`: an insertion behaves as on a set exactly if the window holds a bit or every
  excess member is smaller. The roots tracker only appends, so it never meets the other case.
- `accounts_db.rs`: a clean without a proposed root and without a running scan reads the greatest root
  late; a scan that starts in between is not protected. Its purge hides what a scan sees exactly if
  that is uncached, below the greatest root and not at the newest root of the pubkey, which cannot be
  while the root of the scan is the greatest root. In `UnboundedClean` a scan loses an account.
- `accounts_db.rs`: a clean with a bound, too, changes what a scan sees, by the purge of zero-lamport
  accounts: exactly if that is at a marked slot. In guarded runs it then has zero lamports.
- `in_mem_accounts_index.rs`: by its comment an update gains a reference unless an uncached entry was at
  the slot itself; in the code an uncached entry at the other slot prevents it as well. They agree
  exactly if the update is cached, an uncached entry is at the slot, or none is at the other slot.
- `ancient_append_vecs.rs`: the check for accounts with many references counts bytes, but next-fit
  may need more storages. It is right for all slots exactly if it does not. The comment that a
  truncation brings the number of storages within the maximum holds of the estimate exactly if all
  entries need no more, or combining some of the first ones goes below half of the maximum.
- `accounts_partition.rs`: the pair called a no-op is the range of one key; `partition_from_pubkey` is
  the inverse of the ranges except on fewer than n left-over prefixes, whose keys are filed under an
  index nobody asks for, and which exist with the slots of an epoch as partitions; `get_partitions`
  skips partitions exactly if it jumps over a cycle or to the start of one.
- `account_storage.rs`: the assertion at the end of a shrink holds exactly if since the shrink looked up
  the old store the slot was not removed and no other shrink of it swapped, and the one against
  duplicate calls exactly if no other shrink of the slot is registered.

## Model

| member | source | states |
|---|---|---|
| `Merkle.ComputeMerkleRootLoop` | solana/accounts-db/src/accounts_hash.rs:530-567 | the level-by-level form computes `Root`, the recursive definition of the fanout tree, for every list, the empty one included; up to fanout hashes are hashed at once |
| `Merkle.GroupOfLevel` | solana/accounts-db/src/accounts_hash.rs:546-567 | hash i of a level covers the i-th group of fanout hashes, the last of which may be short |
| `Merkle.LevelsAppend` | solana/accounts-db/src/accounts_hash.rs:598-760 | k levels of a whole number of chunks and of what follows can be computed apart and joined: why chunks may be hashed in parallel |
| `Merkle.LevelsSize` | solana/accounts-db/src/accounts_hash.rs:569-594 | how many hashes k levels leave, both ways: at most m exactly if there were at most m * fanout^k |
| `Merkle.RootOfLevels` | solana/accounts-db/src/accounts_hash.rs:598-775 | going up k levels keeps the root as long as more than fanout^k hashes were there |
| `Merkle.CalculateThreeLevelChunks` | solana/accounts-db/src/accounts_hash.rs:569-594 | three levels exactly if there are at least fanout^4 hashes and neither limit forbids it; the chunk size is fanout to the number of levels |
| `Merkle.NextHash` | solana/accounts-db/src/accounts_hash.rs:652-664 | the cursor over refetched slices always yields the next hash of the flat list |
| `Merkle.HashThreeLevels` | solana/accounts-db/src/accounts_hash.rs:665-728 | the hand-unrolled three nested hashers over one chunk give the single hash of its third level |
| `Merkle.HashChunks` | solana/accounts-db/src/accounts_hash.rs:623-732 | all chunks together are exactly one or three levels of the flat list |
| `Merkle.TopOrMore` | solana/accounts-db/src/accounts_hash.rs:750-760 | after a pass, one hash is the root, and more hashes have the same root as the whole list |
| `Merkle.ComputeMerkleRootFromSlices` | solana/accounts-db/src/accounts_hash.rs:598-775 | with no level count the same root as the simple form; with count k exactly k levels, however passes of one and of three levels are mixed |
| `HashSlices.New` | solana/accounts-db/src/accounts_hash.rs:409-439 | the offset table of nested vectors lists the non-empty ones with the place where each starts in the flat list |
| `HashSlices.FindIndex` | solana/accounts-db/src/accounts_hash.rs:441-448 | the entry found is the one whose vector holds the position |
| `HashSlices.GetSlice` | solana/accounts-db/src/accounts_hash.rs:450-468 | the slice is the rest of that vector: non-empty, and what the flat list has from the position to the end of the vector |
| `HashSlices.FromFiles` | solana/accounts-db/src/accounts_hash.rs:375-398 | dropping files without hashes keeps the flat list |
| `Search.BinarySearch` | solana/accounts-db/src/accounts_hash.rs:904-936 | bisection over ordered comparisons finds an equal element or the insertion point |
| `Dedup.BinarySearchForFirstPubkeyInBin` | solana/accounts-db/src/accounts_hash.rs:902-936 | the first entry of the bin, or none exactly if the bin is empty; the search never hits |
| `Dedup.FindFirstPubkeyInBin` | solana/accounts-db/src/accounts_hash.rs:938-976 | guessing by interpolation and then searching one half gives the same first entry |
| `Dedup.GetItem` | solana/accounts-db/src/accounts_hash.rs:861-900 | the last of the run of duplicates, and the place of the next pubkey if it is not in a higher bin |
| `DedupMerge.AddNextItem` | solana/accounts-db/src/accounts_hash.rs:1046-1114 | one group moves on: the working set stays strictly descending, one location per group, and still covers every pubkey left; of equal pubkeys the higher group wins and the other moves on |
| `DedupMerge.InitializeDedupWorkingSet` | solana/accounts-db/src/accounts_hash.rs:978-1044 | the working set of all groups has these properties, and the count returned is the number of entries in the bin |
| `DedupMerge.KeysWithinCount` | solana/accounts-db/src/accounts_hash.rs:1123-1187 | a bin has no more distinct pubkeys than entries, so the file capacity suffices |
| `DedupBin.AccountHashesFile.Write` | solana/accounts-db/src/accounts_hash.rs:51-58 | a hash is appended to a file with room; the caller proves the room |
| `DedupBin.InForce` | solana/accounts-db/src/accounts_hash.rs:1123-1187 | an entry with nothing for its key after it, in its group or a later one, is the last one of its key in the flat list |
| `DedupBin.WinnerLast` | solana/accounts-db/src/accounts_hash.rs:1047-1187 | the location taken from the working set leads to that entry |
| `Dedup.LastEntryIsLast` | solana/accounts-db/src/accounts_hash.rs:861-900 | the entry in force of a pubkey is one after which there is no other |
| `Dedup.HashesAreListed` | solana/accounts-db/src/accounts_hash.rs:1157-1172 | without zero-lamport accounts the file lists, in key order, the hashes of exactly the pubkeys whose entry in force has lamports; with them one hash for every pubkey, that of the entry, or of the pubkey if it has none |
| `DedupBin.DeDupAccountsInBin` | solana/accounts-db/src/accounts_hash.rs:1118-1187 | one bin gives, ascending, the hashes of the entries in force by this rule, stated outright, and their lamports; it panics exactly if the lamports exceed 64 bits |
| `PubkeyBins.PubkeyBinIsBinner` | solana/accounts-db/src/pubkey_bins.rs:19-36 | the bin calculator is monotone and stays below the number of bins |
| `PubkeyBins.BinIsLeadingBits` | solana/accounts-db/src/pubkey_bins.rs:19-36 | the bin of a pubkey is its first bits, as a number |
| `HashPipeline.DeDupAccounts` | solana/accounts-db/src/accounts_hash.rs:796-859 | the files of all bins are, by the same rule, the hashes of all pubkeys in ascending order, and the lamports their sum; it panics exactly if the total exceeds 64 bits |
| `HashPipeline.RestOfHashCalculation` | solana/accounts-db/src/accounts_hash.rs:1189-1217 | (root, lamports) equal a reference that knows no bins, slices or groups, so the result does not depend on the number of bins; the root has fanout 16 and is over the hashes by the rule above |
| `HashPipeline.CalculateHash` | solana/accounts-db/src/accounts_hash.rs:494-509 | the root of nested vectors is the root of the flat list, with fanout 16 |
| `RollingBitFields.RollingBitField.Insert` | solana/accounts-db/src/rolling_bit_field.rs:83-146 | afterwards the field is the set with the key added, as far as a caller can observe, exactly if the window held a bit or all excess members are smaller |
| `RollingBitFields.UnsafeInsertion` | solana/accounts-db/src/rolling_bit_field.rs:83-146 | a short history after which an insertion makes the field forget a member |
| `RollingBitFields.RollingBitField.AppendingIsSafe` | solana/accounts-db/src/accounts_index.rs:1913-1920 | the order the roots tracker asserts makes every insertion safe |
| `RollingBitFields.RollingBitField.MakeRoom` | solana/accounts-db/src/rolling_bit_field.rs:97-122 | moving the window keeps all members, the old ones as excess |
| `RollingBitFields.RollingBitField.Purge` | solana/accounts-db/src/rolling_bit_field.rs:176-204 | the window is closed up to its least member and nothing is lost |
| `RollingBitFields.RollingBitField.Remove` | solana/accounts-db/src/rolling_bit_field.rs:148-172 | the key is gone, nothing else is, and the greatest key ever inserted stays on record |
| `RollingBitFields.RollingBitField.Contains` | solana/accounts-db/src/rolling_bit_field.rs:206-225 | membership |
| `RollingBitFields.RollingBitField.MaxInclusive` | solana/accounts-db/src/rolling_bit_field.rs:235-242 | no member is greater, and it is one less than the exclusive maximum on record |
| `RollingBitFields.RollingBitField.GetAll` | solana/accounts-db/src/rolling_bit_field.rs:279-293 | exactly the members |
| `SlotLists.LatestSlot` | solana/accounts-db/src/accounts_index.rs:1311-1350 | the entry returned is visible and of the greatest visible slot, the last of these in the list; none exactly if nothing is visible |
| `SlotLists.LatestIsAnswer` | solana/accounts-db/src/accounts_index.rs:1311-1350 | that entry is the answer of a one-pass definition of visibility |
| `SlotLists.GetNewestRootInSlotList` | solana/accounts-db/src/accounts_index.rs:1452-1469 | the greatest alive root up to the limit that occurs in the list, or slot 0 |
| `SlotLists.PurgeOlderRootEntries` | solana/accounts-db/src/accounts_index.rs:1808-1839 | what is kept, in order, and what is moved to the reclaims |
| `SlotLists.PurgeConserves` | solana/accounts-db/src/accounts_index.rs:1808-1839 | kept and moved entries are the entries there were; what is moved is uncached |
| `SlotLists.KeptMembers` | solana/accounts-db/src/accounts_index.rs:1808-1839 | kept are exactly the entries that are cached, not below the bound, or at the newest root |
| `SlotLists.PurgeDropsAnswer` | solana/accounts-db/src/accounts_index.rs:1808-1839 | whatever its bound, a purge changes the answer to any query exactly if that answer is uncached, below the bound and not at the newest root |
| `SlotLists.PurgeChangesAnswer` | solana/accounts-db/src/accounts_index.rs:1808-1839 | with a clean root or without, a purge changes the answer to a query at or above its bound in one case only: it dropped an ancestor that is no alive root |
| `SlotLists.RootChangesAnswer` | solana/accounts-db/src/accounts_index.rs:1311-1350 | a new root changes the answer exactly if it is seen only now, has an entry and is above the answer so far |
| `SlotLists.MoveKeepsAnswer` | solana/accounts-db/src/ancient_append_vecs.rs:488-526 | an entry moved between visible slots past no other entry stays the answer if it was, and otherwise the answer stays |
| `SlotLists.UpdateSlotList` | solana/accounts-db/src/accounts_index/in_mem_accounts_index.rs:609-688 | in all three modes: the entries at the slot and at the slot replaced give way to one entry; the others stay in order; the reclaims are what gave way, if they are wanted; a reference is gained exactly if the new entry is uncached and nothing uncached gave way; it panics exactly if the entries giving way must be cached and one is not |
| `SlotLists.CommentAgrees` | solana/accounts-db/src/accounts_index/in_mem_accounts_index.rs:609-688 | the code gains a reference by the rule of its comment exactly if the update is cached, or something uncached was at the slot, or nothing uncached at the other slot |
| `SlotLists.CommentDiffers` | solana/accounts-db/src/accounts_index/in_mem_accounts_index.rs:609-688 | an uncached entry moved from slot 1 to slot 2: by the comment a reference is gained, in the code it is not |
| `SlotLists.BlindToOthers` | solana/accounts-db/src/accounts_index/in_mem_accounts_index.rs:618-688 | a query that sees neither slot gets the same answer after the update |
| `Forks.NewBankKeeps` | solana/runtime/src/bank.rs:1333-1339 | a new bank keeps the tree invariant: ancestors are lineage slots, nested, and complete since the root |
| `Forks.MoveRootKeeps` | solana/runtime/src/bank.rs:3743-3765 | so does moving the root |
| `Forks.RemoveKeeps` | solana/accounts-db/src/accounts_db.rs:5799-5884 | and removing banks that are not rooted |
| `Forks.OldAncestorsAreRooted` | solana/accounts-db/src/accounts_index.rs:799-911 | the ancestors of a bank on the root, up to the root, are slots of the rooted lineage: the guard the stability argument needs, derived instead of assumed |
| `Forks.FrozenLineage` | solana/accounts-db/src/accounts_index.rs:799-911 | nobody writes at a slot of the lineage of a live frozen bank |
| `ScanProtocol.MaxCleanRoot` | solana/accounts-db/src/accounts_db.rs:2777-2789 | the clean bound is the least ongoing scan root or what was proposed, and not above either; there is none exactly if nothing was proposed and no scan is under way |
| `ScanProtocol.RegisterCounts` | solana/accounts-db/src/accounts_index.rs:770-797 | registering keeps: every root is counted as often as scans are registered at it |
| `ScanProtocol.UnregisterCounts` | solana/accounts-db/src/accounts_index.rs:950-977 | so does unregistering |
| `ScanProtocol.MinBoundsScans` | solana/accounts-db/src/accounts_index.rs:743-745 | the least registered root bounds every scan |
| `ScanProtocol.NextKeeps` | solana/accounts-db/src/accounts_index.rs:747-977 | each of the seventeen steps (banks, freezing, roots, removals, upserts, relocations, moves between slots, versions dropped at a flush, slot purges, scans, cleans with a bound or without and their purges of older versions and of zero-lamport accounts, root drops) keeps the invariant |
| `ZeroPurges.Marking` | solana/accounts-db/src/accounts_db.rs:3117-3143 | when the latest rooted version up to the bound has zero lamports, all rooted versions up to the bound are marked, and every one with lamports lies below a rooted one without |
| `ZeroPurges.HoldsWhenFiltered` | solana/accounts-db/src/accounts_db.rs:3172-3308 | a mark goes on saying so when other cleans and flushes take entries out of the list: above a marked version with lamports there is always a rooted one without, or one above the bound |
| `ScanMarks.NextKeepsMarks` | solana/accounts-db/src/accounts_db.rs:3105-3308 | every mark survives every step between the reading of the list and the purge |
| `ScanViews.CleanView` | solana/accounts-db/src/accounts_index.rs:1808-1869 | a purge changes what a running scan of a live bank sees of a pubkey exactly if the clean has no bound and the entry seen is uncached, below the greatest root and not at the newest root of the pubkey |
| `ScanViews.CurrentRootIsSafe` | solana/accounts-db/src/accounts_db.rs:4660-4685 | a clean without a bound hides nothing from a scan whose root is the greatest root |
| `ScanViews.MoveView` | solana/accounts-db/src/ancient_append_vecs.rs:488-526 | moving an entry between alive roots not above the scan leaves the account found as it is, and changes the slot exactly if it is the entry seen |
| `ScanViews.PurgeZeroView` | solana/accounts-db/src/accounts_db.rs:3290-3308 | the purge of a zero-lamport account changes what a scan sees exactly if that is at a marked slot |
| `ScanViews.ClearsUpToBound` | solana/accounts-db/src/accounts_db.rs:3290-3308 | if the scan is not older than the bound of the mark, exactly if that is at or below the bound, and then nothing is seen afterwards |
| `ScanViews.BoundedMarkIsLow` | solana/accounts-db/src/accounts_db.rs:3105-3143 | no scan is older than the marks of a clean with a bound |
| `ScanViews.SupersedeView` | solana/accounts-db/src/accounts_db.rs:6219-6274 | a cached version dropped at a flush for one at a later root, both within the bound, was seen by no scan |
| `ScanViews.StepChangesView` | solana/accounts-db/src/accounts_index.rs:799-911 | of all steps, exactly three kinds change what a registered scan of a live bank sees: purges of a clean without a bound that hide it, purges of zero-lamport accounts that clear it, moves that shift it; moves keep the account |
| `ScanRuns.StableExactly` | solana/accounts-db/src/accounts_index.rs:747-977 | over every run, a scan sees the same slot and version of a pubkey from any moment to any later one exactly if no step between hides, clears or moves it |
| `ScanRuns.GuardedScanIsSafe` | solana/accounts-db/src/accounts_db.rs:3105-3308 | in a run whose cleans without a bound read slot lists only while the root of the scan is the greatest root, whatever a scan sees that a mark may take from it has zero lamports |
| `ScanRuns.ScanStability` | solana/accounts-db/src/accounts_index.rs:747-977 | in such a run, from any moment of the scan to any later one it finds the same version of every pubkey, or nothing any more if that version had zero lamports; and at the same slot unless it was moved |
| `ScanRuns.CheckedScan` | solana/accounts-db/src/accounts_index.rs:747-977 | in such a run, a scan that ends without reporting a removed bank has read one consistent set of accounts with lamports |
| `ScanViews.AncestorsUsedIfDescendant` | solana/accounts-db/src/accounts_index.rs:839-858 | the ancestors are used exactly for banks that descend from the greatest root |
| `UnboundedClean.HidesVersion` | solana/accounts-db/src/accounts_db.rs:2777-2789 | a run from the initial state (clean begun without a bound, scan begun, bank made, account written, root added, purge) in which the scan loses the account it found |
| `UnboundedClean.ClearsVersion` | solana/accounts-db/src/accounts_db.rs:3105-3308 | a like run with the purge of a zero-lamport account, in which the scan loses an older version, with lamports or without |
| `ZeroPurgeRun.ClearsZero` | solana/accounts-db/src/accounts_db.rs:3105-3308 | a guarded run in which a clean with a bound takes a zero-lamport version from a scan |
| `ScanViews.FirstRootChangesAnswer` | solana/accounts-db/src/accounts_index.rs:770-797 | before the first root, adding it changes what a scan sees exactly if it is slot 0, not an ancestor, and has an entry |
| `AccountsIndexes.AccountsIndex.AddRoot` | solana/accounts-db/src/accounts_index.rs:1911-1920 | the root set grows by the root; with the move of the bank tree this is a step of the protocol |
| `AccountsIndexes.AccountsIndex.CleanDeadSlot` | solana/accounts-db/src/accounts_index.rs:1937-1955 | the root is forgotten, the greatest root not; a step of the protocol when no list has the slot |
| `AccountsIndexes.AccountsIndex.BeginScan` | solana/accounts-db/src/accounts_index.rs:760-870 | fails exactly for a removed bank; else registers the greatest root and decides on the ancestors, as the step of the protocol does |
| `AccountsIndexes.AccountsIndex.EndScan` | solana/accounts-db/src/accounts_index.rs:940-977 | unregisters the root, as the step of the protocol does, and reports a bank removed meanwhile |
| `AccountsIndexes.AccountsIndex.MinOngoingScanRoot` | solana/accounts-db/src/accounts_index.rs:1307-1309 | the least registered root |
| `AccountsIndexes.AccountsIndex.CleanRootedEntries` | solana/accounts-db/src/accounts_index.rs:1845-1869 | the slot list becomes its purge, with a clean root or without; the pubkey and its reference count leave the index exactly when nothing is kept; a step of the protocol |
| `AccountsIndexes.AccountsIndex.PurgeExact` | solana/accounts-db/src/accounts_index.rs:1281-1305 | the entries at the given slots move to the reclaims; a step of the protocol for the slots a clean has marked, for a slot of a removed bank and of no live one, and for a version that a flush passes over |
| `AccountsIndexes.AccountsIndex.FindZero` | solana/accounts-db/src/accounts_db.rs:3111-3143 | what a clean reads of a pubkey: exactly the alive roots up to the bound that have an entry, if the latest rooted version has zero lamports; a step of the protocol |
| `AccountsIndexes.GetRootedEntries` | solana/accounts-db/src/accounts_index.rs:1266-1278 | the entries at alive roots up to the bound, in order |
| `AccountsIndexes.AccountsIndex.Upsert` | solana/accounts-db/src/accounts_index.rs:1741-1778 | the slot list becomes its update; the reference count of the pubkey, zero for a new one, grows by one exactly if a reference is gained and else stays, and no other count changes; for the slot of an unfrozen live bank a step of the protocol |
| `IndexIteration.LooksFarEnough` | solana/accounts-db/src/accounts_index.rs:498-521 | the bins looked at hold all keys of the range |
| `IndexIteration.FillChunk` | solana/accounts-db/src/accounts_index.rs:564-592 | a batch is the first keys of the remaining range, or all of them when collecting unsorted |
| `IndexIteration.AccountsIndexIterator.Next` | solana/accounts-db/src/accounts_index.rs:564-598 | one batch of full size unless fewer keys remain; what remains afterwards is what was not returned; none exactly if nothing remained |
| `IndexIteration.Drain` | solana/accounts-db/src/accounts_index.rs:564-598 | all batches together are the keys of the range, ascending, none missed or repeated, and all but the last are full |
| `DuplicateRemoval.KeepLastInPlace` | solana/accounts-db/src/accounts_index.rs:1600-1625 | the backward walk in the buffer computes `KeepLast`, never overwriting an unread entry |
| `DuplicateRemoval.SortedKeepsNewest` | solana/accounts-db/src/accounts_index.rs:1596-1598 | after a stable sort, `KeepLast` keeps for every pubkey its last original entry, strictly ascending |
| `DuplicateRemoval.NoneAfterLast` | solana/accounts-db/src/accounts_index.rs:1585-1628 | the last entry of a pubkey is one after which the original list has no other |
| `DuplicateRemoval.RemoveOlderDuplicatePubkeys` | solana/accounts-db/src/accounts_index.rs:1585-1628 | the buffer ends with the last original entry of every pubkey, ascending; kept and returned entries are the original ones |
| `Sorting.StableSortIsStable` | solana/accounts-db/src/accounts_index.rs:1596-1598 | sorting keeps the order of entries of equal rank |
| `AncientPacking.AlignedStoredSize` | solana/accounts-db/src/append_vec.rs:45-60 | at least the fixed part and the data, by less than eight bytes, a multiple of eight |
| `AncientPacking.SplitGroup` | solana/accounts-db/src/ancient_append_vecs.rs:803-827 | a group is split where next-fit stops; an empty storage takes at least one account |
| `AncientPacking.FillStorage` | solana/accounts-db/src/ancient_append_vecs.rs:782-838 | one storage takes what next-fit takes of the flat list of all accounts |
| `AncientPacking.Pack` | solana/accounts-db/src/ancient_append_vecs.rs:764-850 | nothing is lost, repeated or reordered whatever the recorded bytes; if they are right, the storages are the next-fit cut of the flat list with the right bytes |
| `AncientPacking.PackGuarantees` | solana/accounts-db/src/ancient_append_vecs.rs:762-850 | every storage is within the ideal size or a single account; two neighbours never fit into one; one storage fewer, times the ideal size, is less than twice the bytes |
| `NextFit.CutPrefix` | solana/accounts-db/src/ancient_append_vecs.rs:350-362 | what is packed first stays within the storages it would need alone, and reaches the last of them |
| `ManyRefs.AcceptedIsSafe` | solana/accounts-db/src/ancient_append_vecs.rs:282-307 | when the check accepts, no multi-reference account is written below its slot, if next-fit needs no more storages for them than the check allots |
| `ManyRefs.AcceptsExactly` | solana/accounts-db/src/ancient_append_vecs.rs:282-307 | the check accepts exactly if there are no bytes, or there are enough target slots and every account is at or below each of the last ones allotted |
| `ManyRefs.CheckIsExact` | solana/accounts-db/src/ancient_append_vecs.rs:278-307 | for given sizes the check is right for all slots exactly under that condition |
| `ManyRefs.OneStorageIsEnough` | solana/accounts-db/src/ancient_append_vecs.rs:278-307 | it is right whenever the accounts fit one ideal storage |
| `ManyRefs.FragmentationIsUnsafe` | solana/accounts-db/src/ancient_append_vecs.rs:278-307 | three accounts for which it is not |
| `ManyRefs.CombineAncient` | solana/accounts-db/src/ancient_append_vecs.rs:331-371 | check, pack and assignment: nothing is written exactly if the check fails or the target slots are too few; else the writes hold all accounts once and in order, their targets are the last target slots from the highest down, and under the condition none of the first accounts is written below its slot |
| `AncientSlots.AncientSlotInfos.TruncateToMaxStorages` | solana/accounts-db/src/ancient_append_vecs.rs:175-205 | the longest prefix before the result would go below half of the maximum |
| `AncientSlots.AliveBytesIsSum` | solana/accounts-db/src/ancient_append_vecs.rs:183-192 | saturating at every addition gives the sum, or the greatest 64-bit number if it is over |
| `AncientSlots.AncientSlotInfos.FilterBySmallestCapacity` | solana/accounts-db/src/ancient_append_vecs.rs:200-227 | nothing up to the maximum; else a non-empty prefix in the order of shrink flag and capacity, of the same entries |
| `AncientSlots.TruncationIsExact` | solana/accounts-db/src/ancient_append_vecs.rs:175-205 | when entries are dropped, the storages left and required number exactly half of the maximum |
| `AncientSlots.DropsIfGoesBelow` | solana/accounts-db/src/ancient_append_vecs.rs:175-205 | entries are dropped exactly if combining some of the first ones goes below half of the maximum |
| `AncientSlots.EstimateWithinMax` | solana/accounts-db/src/ancient_append_vecs.rs:175-205 | the promised bound holds of the estimate exactly if all entries together need no more than the maximum, or combining some of the first ones goes below half of it |
| `AncientSlots.EstimateOverMax` | solana/accounts-db/src/ancient_append_vecs.rs:175-205 | two full storages and a maximum of one, for which it does not |
| `AncientSlots.PackedWithinMax` | solana/accounts-db/src/ancient_append_vecs.rs:175-205 | and then the storages after next-fit packing number at most the maximum, although packing may need more than the estimate |
| `Partitions.RangeIsTiles` | solana/accounts-db/src/accounts_partition.rs:191-246 | the range of (s, e) is partitions s + 1 to e, and that of (0, 0) partition 0 |
| `Partitions.RangesTile` | solana/accounts-db/src/accounts_partition.rs:191-246 | every pubkey is in exactly one of the ranges (0, 0), (0, 1), ..., (n - 2, n - 1) |
| `Partitions.StartPrefix` | solana/accounts-db/src/accounts_partition.rs:217-225 | no 64-bit overflow at the start of a range |
| `Partitions.EndPrefix` | solana/accounts-db/src/accounts_partition.rs:227-231 | nor at its end |
| `Partitions.NoopRange` | solana/accounts-db/src/accounts_partition.rs:233-243 | the pair meant to be empty is the range of one key |
| `Partitions.InverseIsExact` | solana/accounts-db/src/accounts_partition.rs:315-346 | the inverse map gives the partition of a key exactly if its prefix is below n widths or the greatest |
| `Partitions.IndexInBounds` | solana/accounts-db/src/accounts_partition.rs:363-391 | n + 1 sets are indexed in bounds for every key exactly if n + 1 widths reach the greatest prefix |
| `Partitions.SetsSufficeInPractice` | solana/accounts-db/src/accounts_partition.rs:363-391 | which holds up to 2^32 partitions |
| `Partitions.GetPartitions` | solana/accounts-db/src/accounts_partition.rs:154-189 | the partitions pushed, outright, and their end indexes for every parent: within a cycle those after the parent; in a later cycle 0 alone if the slot begins the cycle, else the rest of the cycle of the parent and those of its own up to the slot; always that of the slot; all those of the slots since the parent exactly if none is skipped |
| `Partitions.EndIndexesAreTurns` | solana/accounts-db/src/accounts_partition.rs:101-121 | the end indexes of a slot are those of the slots since its parent, in order, each once, exactly if no cycle is skipped or left early |
| `Partitions.JumpSkips` | solana/accounts-db/src/accounts_partition.rs:154-189 | for every n above 1: the jump from slot 0 to slot n passes over every partition but one |
| `Partitions.FullTurn` | solana/accounts-db/src/accounts_partition.rs:154-189 | n consecutive turns visit every partition exactly once |
| `Partitions.FullCycle` | solana/accounts-db/src/accounts_partition.rs:154-246 | along a fork, n slots scan every pubkey exactly once; only the greatest pubkey may be scanned again, once for every pair meant to be empty |
| `Partitions.RentPayingAccountsByPartition.AddAccount` | solana/accounts-db/src/accounts_partition.rs:379-385 | the key is filed under its index; it panics exactly if the index is out of bounds |
| `Partitions.RentPayingAccountsByPartition.GetPubkeysInPartitionIndex` | solana/accounts-db/src/accounts_partition.rs:386-394 | exactly the filed keys of that index, none if there is no such index |
| `Partitions.LeftoverIsNeverAskedFor` | solana/accounts-db/src/accounts_partition.rs:101-121 | a key with a left-over prefix is filed under an index no partition asks for |
| `Partitions.LeftoverExists` | solana/accounts-db/src/accounts_partition.rs:315-346 | there are such keys with 432000 partitions |
| `ShrinkHandover.AccountStorage.GetAccountStorageEntry` | solana/accounts-db/src/account_storage.rs:50-68 | with nobody else at work the store is found wherever it is, and has the id asked for; it is what one reader of the step system finds |
| `ShrinkHandover.AccountStorage.Insert` | solana/accounts-db/src/account_storage.rs:132-147 | when it succeeds, when it panics, and what the maps are then; a success is two steps, the test and the write |
| `ShrinkHandover.AccountStorage.Remove` | solana/accounts-db/src/account_storage.rs:115-124 | likewise one step, with the store returned |
| `ShrinkHandover.AccountStorage.ShrinkingInProgress` | solana/accounts-db/src/account_storage.rs:149-183 | likewise two steps, looking up and registering |
| `ShrinkHandover.AccountStorage.DropShrink` | solana/accounts-db/src/account_storage.rs:230-252 | likewise two steps, the swap and the removal from the shrinks in progress |
| `ShrinkHandover.ShrinkAlone` | solana/accounts-db/src/account_storage.rs:149-252 | a whole shrink puts the new store in place and leaves no trace |
| `ShrinkHandover.NextKeeps` | solana/accounts-db/src/account_storage.rs:50-252 | every atomic step of readers, shrinks (several of one slot may have looked up), insertions (test and write apart) and removals keeps the invariant |
| `ShrinkHandover.LookupFinds` | solana/accounts-db/src/account_storage.rs:34-68 | in every interleaving a lookup that begins once the store is registered or in place finds it, unless the slot is removed or the store replaced meanwhile |
| `ShrinkHandover.RegisteredIsAvailable` | solana/accounts-db/src/account_storage.rs:166-183 | from registering to the end of the shrink the new store can be found, as long as the slot is not removed |
| `ShrinkHandover.LookupReturnsId` | solana/accounts-db/src/account_storage.rs:50-68 | over every run no lookup returns another id |
| `ShrinkHandover.DropAssertions` | solana/accounts-db/src/account_storage.rs:149-252 | registering finds the slot free exactly if no other shrink of it is registered; at the drop the old store is replaced exactly if, since it was looked up, the slot was not removed and no other shrink of it swapped; the last assertion always holds |
| `ShrinkHandover.OverlapBreaksDrop` | solana/accounts-db/src/account_storage.rs:149-252 | two shrinks that look up the same store: the second cannot register before the first is done, and then fails at its drop |
| `ShrinkHandover.RemovalBreaksDrop` | solana/accounts-db/src/account_storage.rs:230-252 | from every state with a registered shrink its slot can be removed, and then the first assertion fails |
| `ShrinkHandover.ReadingAlone` | solana/accounts-db/src/account_storage.rs:34-68 | a reader whose three lookups nobody interrupts finds the store in place or the one registered |
| `ShrinkHandover.ThirdLookupIsNeeded` | solana/accounts-db/src/account_storage.rs:34-48 | from every state with a registered shrink there is an interleaving in which the first two lookups miss |
| `AccountLocking.AccountLocks.LockAccount` | solana/accounts-db/src/accounts.rs:528-559 | all locks of a transaction, repeated keys included, exactly if it conflicts with no holder, else nothing changes |
| `AccountLocking.AccountLocks.UnlockAccount` | solana/accounts-db/src/accounts.rs:560-572 | the holder is gone and the table again the summary of the holders |
| `AccountLocking.AccountLocks.UnlockReadonly` | solana/accounts-db/src/accounts.rs:76-89 | one reader fewer; a count of zero is never kept |
| `AccountLocking.LockAccounts` | solana/accounts-db/src/accounts.rs:606-625 | entry by entry: locked exactly if in conflict neither with an earlier holder nor with what the batch locked before it |
| `AccountLocking.UnlockAccounts` | solana/accounts-db/src/accounts.rs:627-645 | exactly what the batch took is given back |
| `AccountLocking.LockAndUnlock` | solana/accounts-db/src/accounts.rs:606-645 | locking a batch and unlocking it with its own results restores the table |
| `AccountLocking.LocksAreExclusive` | solana/accounts-db/src/accounts.rs:48-52 | no key is both write-locked and read-locked exactly if no holder has a key both ways |
| `AccountLocking.TableIsUnique` | solana/accounts-db/src/accounts.rs:48-52 | the holders determine the table |
| `LargestAccounts.Offer` | solana/accounts-db/src/accounts.rs:255-266 | the bounded heap holds the greatest entries seen, all while there is room |
| `LargestAccounts.LoadLargestAccounts` | solana/accounts-db/src/accounts.rs:232-279 | the top accounts by lamports, then pubkey, from the greatest down; all have lamports and pass the address filter, and one that does and is left out is beaten by a full list |
| `LargestAccounts.TopIsUnique` | solana/accounts-db/src/accounts.rs:232-279 | there is only one such list, so the order of the scan does not matter |
| `PublishOrder.CheckDirectCycles` | solana/ci/order-crates-for-publishing.py:89-94 | found exactly if a package and a dependency depend on each other |
| `PublishOrder.Round` | solana/ci/order-crates-for-publishing.py:117-127 | one round takes the packages without dependencies left |
| `PublishOrder.OrderExcludesCycle` | solana/ci/order-crates-for-publishing.py:107-131 | an order excludes every cycle |
| `PublishOrder.StuckHasCycle` | solana/ci/order-crates-for-publishing.py:107-131 | a graph in which every package waits has a cycle |
| `PublishOrder.GetPackages` | solana/ci/order-crates-for-publishing.py:88-131 | every package once, after all its dependencies, or an error; an error exactly if there is a cycle of any length, so no acyclic graph uses up the n^2 rounds |

## Left out

- Files, memory maps, retries, metrics, logging and thread pools: parallel maps are loops in order, and a hash file is a sequence with a capacity.
- Machine integers: sums and products that the source leaves unchecked are exact here (`fanout^4`, byte counts, counts of readers); 64-bit limits are modelled where the source checks, saturates or depends on them.
- The hash function itself and the zero-lamport hash of a pubkey: parameters.
- `choose_storages_to_shrink`, `add` and `calc_accounts_to_combine` in `ancient_append_vecs.rs`: the model starts from the collected slots, groups and target slots.
- `get_partition_from_slot_indexes` and multi-epoch cycles in `accounts_partition.rs`.
- The ancestors of a bank restored from a snapshot: the protocol starts from one bank whose ancestors are its own slot.
- Secondary indexes, the disk index and its background flushing, the write cache, account decoding, and the package metadata of the publishing script.
- Panics in the middle of the shrink protocol: a step whose assertion fails is not taken; the condition under which it would fail is proved.
- Moves of entries while scans run are modelled between alive roots that no running scan is older than, past no other entry of the pubkey, and not of a pubkey that a clean has marked; that ancient packing only moves such entries is not derived (the background service cleans and packs in turn).
- Debug assertions; the one that an unlocked key was write-locked would fail for a key that is twice among the writable ones.
- Forgetting the greatest root: `clean_dead_slot` accepts it, and the step of the protocol does not.
- Taking the id of a removed bank off the record once the bank is dropped, when no scan of it can be running: here removed banks stay on record.
- Which zero-lamport accounts a clean leaves because their storages stay alive or a full snapshot is due: the purge of a marked account may happen or not.
- ScanRuns.ScanStability: says nothing of runs in which a clean without a bound reads slot lists while the root of the scan is not the greatest root, where it can fail; StableExactly covers them.
- ScanRuns.CheckedScan: likewise, and says nothing about a scan whose bank was removed, since the source discards its result.
