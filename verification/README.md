# Verified models of three RDMA key-value stores

The repository rebuilds the server-side data structures of FaRM, Pilaf and HydraDB. This project models six of
them in Dafny and proves what they are for. `dafny verify dfyconfig.toml` checks everything.

Each component has a specification made of functions on values, with the branches, constants and error answers of
the C code, and, where the C code changes memory in place, a class whose methods change arrays and fields
statement by statement and are proved equal to the specification. The theorems are lemmas about the specification.

* **Hopscotch table (FaRM).** `HopscotchModel` is the bucket array as a value; `HopscotchRefinement` proves that the
  hop bitmaps make it a multiset of pairs; `HopscotchReaders` proves what one-sided readers see between any two
  writes; `HopscotchFailures` says what a failed insert leaves behind; `HopscotchVersions` treats the lock and the
  two version counters, `HopscotchHistory` follows items through displacements, and `HopscotchSnapshots` treats every
  memory image of every run; `HopscotchInit` says when the real initial state loses a key, and `HopscotchInitRuns`
  over which runs it does no harm; `HopscotchTable` is the array changed in place, with a ghost record of every
  memory image.
* **Cuckoo placement (Pilaf).** `Cuckoo` (conservation, completeness), `CuckooBounds` (what the bound of the recursion
  means), `CuckooQueue` (rotation law, the shift that the server's bound makes), `CuckooRuns` (three-deep queues over
  whole runs, from any filler), `CuckooTable` (in place).
* **CRC-64 (Pilaf).** `ShiftRegister` proves the algebra of linear shift registers once for any kind of word;
  `Crc64Word` shows that 64-bit words obey it; `Crc64Table` relates the 256 constants to bit-serial turns; `Crc64`
  has the byte loop and what follows for messages; `Crc64Division` the textbook long division.
* **HydraDB hash table.** `HydraModel`, `HydraRefinement` (a map, over whole runs), `HydraCache` (why cached item
  addresses can be trusted), `HydraWrites` (what each operation writes, and in which order), `HydraInit` (the initial
  load and reads by key number), `HydraTable` (in place).
* **HydraDB block allocator.** `MetallocModel`, `MetallocTiling` (backward links tile the block), `MetallocRuns`
  (ledger of chunks, and which calls break the tiling), `MetallocFreeList`, `MetallocTable` (in place).
* **Pilaf credits.** `Credits` is the client and server as a protocol of atomic steps; `CreditsHistory` proves what whole
  runs amount to; `CreditsLoops` has the two loop bodies and proves that their turns are runs of that protocol.

## How the C code is read

* Array sizes, moduli and queue depths are parameters. A hopscotch array has as many buckets as the hash modulus
  (`1 << 22` for both in the code). `CRemainder.Rem` is C's `%`, which takes the sign of the dividend; keys whose
  remainder is negative index outside the arrays and are excluded by the predicates `Homed` and `Key`.
* A 32-bit hop bitmap is the set of its set bits; `__builtin_ctz` is the smallest member. Version counters wrap in
  their own widths, 64 and 8 bits. `h & (sz - 1)` in `hopscotch_remove` is the home itself, as the hash is already
  reduced by the same power of two.
* Values, names and texts that the code only copies are left opaque.
* Most theorems about hopscotch runs start with every key -1 and no hop bit set. The `memset` of `FaRM/common.c:277`
  also sets every hop bit. From that state runs that displace nothing behave as specified
  (`HopscotchInitRuns.NearOpsRefine`); `HopscotchInit.AllOnesInsertIff` says which insert loses a key, and
  `HopscotchInit.AllOnesLosesKey` gives one that does. With all bits set the scan for a key that is not stored reads
  beyond the array when its home is one of the last five buckets (`HopscotchInit.OnesOverrun`); what such a read
  returns is not modelled.
* Pilaf's empty slot is `INT_MIN`, as its comments say, but no code stores it: `memset` takes the lowest byte, so
  `Pilaf/cucko.h:33` stores 0, and the server starts with the 1s of `Pilaf/common.c:173`, which make every key
  0x0101010101010101 (the bulk load is commented out at `Pilaf/main.c:706-713`). The value a table is filled with is
  therefore a parameter of the model: `INT_MIN`, 0, or any value wider than 32 bits that is cut to a key. A displaced
  filler goes through `int dis` and goes on as a key of its own, so besides the residues 0 and `MAXN - 1`, which share
  slots as table `t` begins at `t * (MAXN - 1)`, the residue of the truncated filler is no queue either: on the server as it is started, residues 0, 1843009 and 2499999
  (`CuckooRuns.QueueIffUndisturbed`, `CuckooRuns.ServerQueues`).
* The CRC comment names all ones as Xor_In next to its check value; the code leaves the start value to the caller,
  and the check value belongs to 0 and to no other start value (`Crc64.CheckValueIff`).
* HydraDB's item pool is taken to start with every flag 0 (it is allocated without being cleared), and to have an
  item left when one is taken. The code's own initial load takes all 4,000,000 items: by `HydraInit.LoadedFinds`
  the pool has room afterwards only if it is larger than the load.
* In `freealloc`, line 390 of `HydraDB/metalloc.c` is a comparison, so merged headers stay on the forward chain.
  `malloc`'s memory for the free list is cleared only in its first 10000 bytes, which is 625 entries;
  `MetallocFreeList.StartAgreesIff` says what that asks of the rest. Sizes wrap at 32 bits.
* In the credit protocol the client has posted its receives before the server greets it, sent messages arrive unless
  no receive is posted, and a signalled operation completes some time after it was posted. The number of window
  slots is below `S_DEPTH`, which is below `Q_DEPTH` (1, 1024 and 2048 in the code); the signalling period is the bit
  mask plus one (2 in the code).

## Model

| member | source | states |
|---|---|---|
| `CRemainder.RemUnique` | FaRM/hopscotch.c:46 | The remainder is the one number closer to zero than the modulus, not of the opposite sign of the key, that differs from the key by a multiple |
| `HopscotchModel.FindOffset` | FaRM/hopscotch.c:114-121 | The first set hop bit whose slot holds the key, or none |
| `HopscotchModel.Probe` | FaRM/hopscotch.c:144-145 | The first empty bucket from the home on, or none |
| `HopscotchModel.FindMove` | FaRM/hopscotch.c:148-153 | The nearest bucket before the hole whose lowest hop bit lies before the hole, or none |
| `HopscotchModel.Displace` | FaRM/hopscotch.c:147-168 | The displacement loop ends; it stays between home and first hole, and ends inside the neighbourhood or with nothing to move |
| `HopscotchRefinement.ContentsMember` | FaRM/hopscotch.c:114-121 | The abstract contents are exactly the pairs in slots that their home's bitmap names |
| `HopscotchRefinement.MoveKeeps` | FaRM/hopscotch.c:154-161 | One displacement keeps the bitmap invariant and the contents, and the hole is where the item was |
| `HopscotchRefinement.DisplaceKeeps` | FaRM/hopscotch.c:147-168 | So does the whole displacement loop, of any length |
| `HopscotchRefinement.FindMoveComplete` | FaRM/hopscotch.c:148-167 | The loop gives up exactly when no owned item could legally move into the hole |
| `HopscotchRefinement.DisplaceComplete` | FaRM/hopscotch.c:147-168 | The loop finds room exactly when some freely chosen sequence of legal displacements would: taking the first item it finds loses nothing |
| `HopscotchRefinement.InsertFailsIff` | FaRM/hopscotch.c:144-182 | Insert fails exactly when all buckets from the home on are taken, or no sequence of legal displacements in the given table brings the first hole into the neighbourhood |
| `HopscotchRefinement.FailsUnchanged` | FaRM/hopscotch.c:144-167 | A failing insert for which nothing can move changes nothing |
| `HopscotchRefinement.InsertRefines` | FaRM/hopscotch.c:130-183 | Insert adds exactly one pair, or answers -1 and keeps the contents |
| `HopscotchRefinement.InvInside` | FaRM/hopscotch.c:114-121 | With the bitmap invariant no scan reads beyond the array |
| `HopscotchRefinement.FoundIffStored` | FaRM/hopscotch.c:114-121 | The bitmap scan finds a key if and only if the contents hold it |
| `HopscotchRefinement.LookupRefines` | FaRM/hopscotch.c:102-124 | Lookup answers a stored data of the key, or 0 |
| `HopscotchRefinement.UpdateRefines` | FaRM/hopscotch.c:67-96 | Update replaces the pair lookup would answer with, or answers 0 and changes nothing |
| `HopscotchRefinement.BitmapIff` | FaRM/hopscotch.c:201-203 | A bitmap is empty exactly when no stored key has that home |
| `HopscotchRefinement.RemoveRefines` | FaRM/hopscotch.c:189-218 | Remove takes out the pair lookup would answer with; for a key that is not stored it changes nothing and answers -1 if a stored key has the same home, else 0 |
| `HopscotchRefinement.ExecRefines` | FaRM/hopscotch.c:66-218 | Each operation keeps the invariant and acts as on a multiset of pairs |
| `HopscotchRefinement.RunRefines` | FaRM/hopscotch.c:66-218 | Over every run from the empty table all answers are those of the multiset |
| `HopscotchReaders.ScanIs` | FaRM/main.c:202-203 | A read covers exactly six buckets, fewer at the end of the array, and takes the data of the first one that carries the key |
| `HopscotchReaders.ClientAgreesIff` | FaRM/main.c:202-213 | The client, which starts at bucket number `key`, gets what lookup answers exactly for keys below the modulus and keys that are not stored |
| `HopscotchReaders.DisplaceVisible` | FaRM/hopscotch.c:147-168 | After every write of the displacement loop every stored pair can be read from its six buckets |
| `HopscotchReaders.InsertVisible` | FaRM/hopscotch.c:144-178 | After every write of an insert of a new key every pair stored before can be read from its six buckets |
| `HopscotchReaders.PublicationTorn` | FaRM/hopscotch.c:171-176 | Between the writes of key and data a reader accepts the new key with the slot's former data |
| `HopscotchReaders.ScanAgrees` | FaRM/main.c:202-213 | With unique keys and no stray slot the six-bucket scan returns what lookup returns |
| `HopscotchReaders.InsertQuiet` | FaRM/hopscotch.c:130-183 | A successful insert of a new key keeps keys unique and leaves no stray slot |
| `HopscotchReaders.ExecQuiet` | FaRM/hopscotch.c:66-218 | So does every operation, unless it inserts a key for which something can move but the hole cannot be brought near |
| `HopscotchReaders.RunReads` | FaRM/main.c:202-213 | In every state of a run without such inserts, reads by scan and by lookup agree on every key |
| `HopscotchFailures.LookupDetermined` | FaRM/hopscotch.c:102-124 | With unique keys lookups depend only on the contents |
| `HopscotchFailures.FailedInsertKeeps` | FaRM/hopscotch.c:148-167 | A failed insert keeps the contents, and lookups if no key is stored twice, and makes at most one slot occupied but unowned |
| `HopscotchFailures.InsertQuietIff` | FaRM/hopscotch.c:144-176 | An insert of a new key leaves no stray slot exactly when there is no hole, or the first hole can be brought near by legal displacements, or nothing can move into it |
| `HopscotchFailures.FailedInsertMisleads` | FaRM/hopscotch.c:148-167 | In the remaining case some key's next update is seen by lookup but by no one-sided read |
| `HopscotchFailures.FailedInsertDisplaces` | FaRM/hopscotch.c:148-167 | A sixteen-bucket table in which an insert fails after displacing an item |
| `HopscotchSnapshots.MoveOrder` | FaRM/hopscotch.c:154-161 | A displacement writes key, data, long version, lock and short version of the hole in this order, then takes the old bit out and puts the new one in, and writes nothing else |
| `HopscotchSnapshots.PublishOrder` | FaRM/hopscotch.c:171-176 | A publication writes long version, lock, short version, key and data in this order, then claims the slot, and writes nothing else |
| `HopscotchSnapshots.ExecLast` | FaRM/hopscotch.c:66-218 | The writes of every operation lead to its result |
| `HopscotchSnapshots.ExecSnapshot` | FaRM/hopscotch.c:66-218 | Between any two writes of any operation a stored slot is locked exactly while it is updated, its counters are in step exactly outside the two images between their increments, and unlocked it carries a pair stored before or after |
| `HopscotchSnapshots.RunSnapshots` | FaRM/hopscotch.c:66-218 | So it is in every memory image of every run from the empty table |
| `HopscotchSnapshots.SetReads` | FaRM/hopscotch.c:84-88 | During an update the readers of the key get the old data up to the second write and the new data from the third, all others what they got before |
| `HopscotchSnapshots.DelReads` | FaRM/hopscotch.c:208-211 | During a removal the readers of the key get its data up to the first write and nothing from the second, all others what they got before |
| `HopscotchSnapshots.RunImagesRead` | FaRM/hopscotch.c:66-218 | In every memory image of every disciplined run every other stored key can be read with its data |
| `HopscotchSnapshots.RunVersions` | FaRM/hopscotch.c:84-88 | In every update of every run from the empty table the counters reject exactly the two images between their increments |
| `HopscotchVersions.VersionsCount` | FaRM/hopscotch.c:84-88 | Both counters count the updates in their own widths |
| `HopscotchVersions.AcceptanceWindow` | FaRM/main.c:212 | The reader's test accepts an idle item exactly for its first 254 updates, until the long counter wraps |
| `HopscotchHistory.InsertCarries` | FaRM/hopscotch.c:154-176 | Through an insert, whatever it displaces, every stored item keeps key, data, lock and both counters; the new one starts with version 1, unlocked |
| `HopscotchHistory.UpdateChanges` | FaRM/hopscotch.c:84-88 | An update of a stored key rewrites data, counters and lock of the slot lookup answers from, and nothing else |
| `HopscotchHistory.RemoveChanges` | FaRM/hopscotch.c:206-212 | A removal of a stored key writes -1 over key and data of the slot lookup answers from and clears its bit, and changes nothing else |
| `HopscotchHistory.RunVersionsCount` | FaRM/hopscotch.c:66-218 | Over every run without re-inserts the counters of a stored item are 1 plus the number of its updates since its insert, in 64 and 8 bits, whatever displacements it went through, and the readers' test accepts it exactly while the long one is below 256 |
| `HopscotchVersions.ExecQuiescent` | FaRM/hopscotch.c:66-218 | Every operation leaves stored items unlocked with counters equal modulo 256 |
| `HopscotchVersions.RunQuiescent` | FaRM/hopscotch.c:66-218 | So does every run from the empty table |
| `HopscotchInit.OnesDisplace` | FaRM/hopscotch.c:147-168 | With all hop bits set the displacement loop shifts the slots between neighbourhood and hole up by one |
| `HopscotchInit.CoveredFinds` | FaRM/hopscotch.c:114-121 | Where every item lies within reach of its home, whatever other bits are set, the scan finds a key exactly when some slot holds it |
| `HopscotchInit.WithinCovered` | FaRM/common.c:277 | So it is with all hop bits set and every key in its neighbourhood |
| `HopscotchInit.OnesOverrun` | FaRM/hopscotch.c:114-121 | With all hop bits set the scan reads beyond the array exactly for the keys it does not find whose home is one of the last five buckets |
| `HopscotchInit.AllOnesInsertIff` | FaRM/common.c:277 | From the 0xFF state an insert keeps every key in its neighbourhood, and within reach of its scan, exactly when there is no hole, the hole is near, or no item to be shifted lies in the last slot of its neighbourhood; all bits stay set exactly when nothing moves |
| `HopscotchInit.AllOnesFoundIff` | FaRM/common.c:277 | With distinct keys lookups find every key stored before such an insert exactly under that condition |
| `HopscotchInit.NearRun` | FaRM/common.c:277 | Runs of inserts with near holes, or none, from the 0xFF state keep all bits set and every key in its neighbourhood |
| `HopscotchInit.AllOnesLosesKey` | FaRM/common.c:277 | A run of seven inserts from the 0xFF state of eight buckets: the last answers 0, and a lookup that found key 40 before it misses it after |
| `HopscotchInitRuns.NearInsert` | FaRM/hopscotch.c:144-182 | Where every item is within reach, an insert that displaces nothing adds its pair exactly when there is a hole |
| `HopscotchInitRuns.NearOpsRefine` | FaRM/common.c:277 | Over every run of all operations from the 0xFF state whose inserts displace nothing and whose scans stay inside the array, all answers are those of the multiset, removals of keys not stored answer -1, and every stored key is found |
| `HopscotchTable.Table.FromInit` | FaRM/common.c:277 | The state that hopscotch_init builds: all keys -1, all hop bits set |
| `HopscotchTable.DisplaceStep` | FaRM/hopscotch.c:147-168 | A round strictly lowers the hole and keeps it above the home |
| `HopscotchTable.Table.Lookup` | FaRM/hopscotch.c:102-124 | The loop computes the specified lookup |
| `HopscotchTable.Table.Update` | FaRM/hopscotch.c:67-96 | The in-place update, write by write, is the specified one |
| `HopscotchTable.Table.Remove` | FaRM/hopscotch.c:189-218 | The in-place removal, write by write, is the specified one |
| `HopscotchTable.Table.MoveInto` | FaRM/hopscotch.c:150-161 | The seven writes of one displacement are the specified images |
| `HopscotchTable.Table.SearchMove` | FaRM/hopscotch.c:148-153 | The inner loop computes the specified distance |
| `HopscotchTable.Table.MakeRoom` | FaRM/hopscotch.c:147-168 | The displacement loop computes the specified outcome and images |
| `HopscotchTable.Table.PublishAt` | FaRM/hopscotch.c:170-176 | The six writes of a publication are the specified images |
| `HopscotchTable.Table.Insert` | FaRM/hopscotch.c:130-183 | The in-place insert yields the specified array, answer and memory images |
| `HopscotchTable.InsertUnderReaders` | FaRM/hopscotch.c:130-183 | While the in-place insert of a new key runs, no memory image hides a stored pair |
| `Cuckoo.NarrowIs` | Pilaf/cucko.h:91 | A displaced key goes on with its low 32 bits as a signed number |
| `Cuckoo.Place` | Pilaf/cucko.h:60-102 | Every slot holds the filler, or a key at one of its own three positions, also with the overlapping stride |
| `Cuckoo.PresentIffStored` | Pilaf/cucko.h:76-82 | The three-position test finds a key other than the filler if and only if it is stored anywhere |
| `Cuckoo.LookupComplete` | Pilaf/cucko.h:118-128 | Lookup answers the residue exactly for keys that one of their own slots holds, else -1; other than for the filler these are the keys stored anywhere |
| `Cuckoo.PlaceConserves` | Pilaf/cucko.h:76-101 | Table keys plus the pending key are conserved along the chain, but for at most one key that displaced fillers bring in, their truncation, and only if it was not there; a call loses at most one key; keys stay distinct |
| `CuckooBounds.ChainResumes` | Pilaf/cucko.h:66-98 | The bound only cuts the chain off: with bound a + b a call does what one with bound a does and then places the key that one drops, where the chain has come to, with bound b |
| `CuckooQueue.Rotate` | Pilaf/cucko.h:66-98 | From any depth the new key and the three occupants rotate with period four |
| `CuckooQueue.RotationLaw` | Pilaf/cucko.h:66-98 | For every residue whose slots hold three keys of its own, the lost key is decided by n mod 4, and is the new one exactly when 4 divides n |
| `CuckooQueue.Ripple` | Pilaf/cucko.h:89-98 | From any table on, the pending key pushes what is in its column up by one, and the last occupant out |
| `CuckooQueue.PlaceShifts` | Pilaf/cucko.h:76-101 | For every residue, 0 and MAXN-1 included, whose slots hold only keys of its own and that displaced fillers do not come to: with n = 3, or any n that lets the chain reach a free slot, a new key shifts the three tables by one and only the last occupant is dropped; a present key changes nothing; a displaced filler stays in its own residue if that is inner |
| `CuckooQueue.InnerOwns` | Pilaf/cucko.h:79-80 | The slots of a residue other than 0 and MAXN-1 hold nothing of another residue |
| `CuckooQueue.OtherChain` | Pilaf/cucko.h:89-98 | Chains of residues that share no slot with a residue, and fillers of such residues, leave its column alone |
| `CuckooRuns.ServeDistinct` | Pilaf/main.c:182-190 | Over every run of the server, from any filler, keys stay distinct |
| `CuckooRuns.ServeIsQueue` | Pilaf/main.c:182-190 | Over every run a residue that fillers do not come to holds its last three accepted keys, latest first, as long as no residue that shares a slot is asked for; inner ones share none |
| `CuckooRuns.QueueIffUndisturbed` | Pilaf/cucko.h:80-98 | For every residue and filler: its slots are a queue over every run if and only if it shares no slot under the stride MAXN-1 and is not the residue of the truncated filler |
| `CuckooRuns.ServerQueues` | Pilaf/common.c:172-173 | On the server, whose table starts with every byte 1, all residues are queues but 0, 1843009 and 2499999 |
| `CuckooTable.LoadedKeys` | Pilaf/cucko.h:132-143 | A bulk load stores each given key at most once, and no others but the truncated filler |
| `CuckooTable.LoadedQueue` | Pilaf/cucko.h:132-143 | A bulk load stores all keys of a residue that is given at most three, latest first |
| `CuckooTable.Table.constructor` | Pilaf/common.c:172-173 | The table the server starts with: every byte is 1 |
| `CuckooTable.Table.Place` | Pilaf/cucko.h:60-102 | The recursive in-place placement is the specified one |
| `CuckooTable.Table.Lookup` | Pilaf/cucko.h:118-128 | The loop answers the residue exactly for stored keys |
| `CuckooTable.Table.Load` | Pilaf/cucko.h:132-143 | The bulk load fills the table with 0 and then places every key with the number of keys as bound |
| `ShiftRegister.SerialLinear` | Pilaf/crc64.h:4-8 | A register of a difference of messages is the difference of the registers |
| `ShiftRegister.SerialInjective` | Pilaf/crc64.h:4-8 | For a fixed message different start values end differently |
| `ShiftRegister.BurstDetected` | Pilaf/crc64.h:4-8 | Every error burst of at most one word of bits changes the register |
| `Crc64Word.RegisterLawful` | Pilaf/crc64.h:4-8 | Bit-serial reflected division by the documented polynomial obeys the laws of a linear register |
| `Crc64Table.TableIsTurns` | Pilaf/crc64.h:42-171 | Each of the 256 constants is its index after eight bit-serial turns |
| `Crc64.Crc64` | Pilaf/crc64.c:3-11 | The loop computes the fold of the byte step over the first l bytes |
| `Crc64.ByteStepIsSerial` | Pilaf/crc64.c:6-9 | One table step takes in exactly the eight bits of the byte |
| `Crc64.TableIsSerial` | Pilaf/crc64.c:6-9 | For every start value and message the byte loop equals bit-serial reflected division |
| `Crc64.CrcConcat` | Pilaf/crc64.c:6-9 | The CRC of two parts in turn is the CRC of the whole |
| `Crc64.BitBurstDetected` | Pilaf/crc64.c:3-11 | Messages that differ in one burst of at most 64 bits, at any bit position, have different CRCs |
| `Crc64.ByteBurstDetected` | Pilaf/crc64.c:3-11 | Messages that differ only within eight consecutive bytes have different CRCs |
| `Crc64.CrcLinear` | Pilaf/crc64.c:6-9 | The CRC of a XOR of messages and start values is the XOR of the CRCs |
| `Crc64.CheckValue` | Pilaf/crc64.h:11 | The documented check value is met from start value 0 |
| `Crc64.CrcInjective` | Pilaf/crc64.c:3-11 | For a fixed message different start values give different CRCs |
| `Crc64.CheckValueIff` | Pilaf/crc64.h:8-11 | The documented check value is met from start value 0 and from no other, so not from the documented Xor_In |
| `Crc64Division.CrcIsDivision` | Pilaf/crc64.h:4-8 | Read in reverse, the CRC is the long division of the message bits by 0xad93d23594c935a9, and the CRC is that remainder read in reverse |
| `HydraModel.Scan` | HydraDB/hash.c:110-126 | The first slot with a null address or an item of the key |
| `HydraModel.FreeSlot` | HydraDB/hash.c:60-67 | The first slot that is not busy |
| `HydraModel.FoundIffLive` | HydraDB/hash.c:102-132 | A search for a key other than 0 finds exactly the slot in use for it, before any null address |
| `HydraModel.NullReadIff` | HydraDB/hash.c:110-112 | A search that fails reads through null exactly when the bucket has a slot that was never used |
| `HydraRefinement.PublishKeeps` | HydraDB/hash.c:88-98 | A new item keeps the invariant: unshared items, null addresses last, current items in use |
| `HydraRefinement.SupersedeKeeps` | HydraDB/hash.c:142-153 | So does the replacement of an item |
| `HydraRefinement.FreeKeeps` | HydraDB/hash.c:166-168 | So does the release of a slot |
| `HydraRefinement.InsertRefines` | HydraDB/hash.c:83-101 | An insertion of an unstored key adds it with its value, its size modulo 256 and lease 1, and fails exactly when all seven slots are in use |
| `HydraRefinement.UpdateRefines` | HydraDB/hash.c:135-157 | An update of a stored key changes its value, size and lease, and no other key |
| `HydraRefinement.DeleteRefines` | HydraDB/hash.c:159-173 | A deletion removes its key and no other |
| `HydraRefinement.ExecRefines` | HydraDB/hash.c:83-173 | Each operation that does not crash acts as on a map of keys to latest values with their sizes and leases |
| `HydraRefinement.CrashIff` | HydraDB/hash.c:110-157 | For keys other than 0 exactly updates of unstored keys, and searches for them in a bucket not fully used, crash |
| `HydraRefinement.RunRefines` | HydraDB/hash.c:83-173 | Over every run each search answers the latest value, with its size and lease |
| `HydraRefinement.BlankAgrees` | HydraDB/hash.c:70-80 | A created table stands for the empty map |
| `HydraRefinement.DeletedStillFound` | HydraDB/hash.c:159-173 | A deleted key is still found if and only if it is 0 |
| `HydraRefinement.DeletionCreatesZero` | HydraDB/hash.c:159-173 | Deleting any key of bucket 0 makes key 0 appear |
| `HydraCache.CurrentIffFound` | HydraDB/hash.c:102-132 | An item looks current for a key exactly when a search finds it |
| `HydraCache.RunPins` | HydraDB/hash.c:83-173 | Over every run values stay, marks and wiped keys stay, and slots keep pointing to items that look current |
| `HydraCache.CachedAddress` | HydraDB/hash.c:135-157 | After any run a cached item has flag 0 and its key exactly when a search would return the same slot and item; its value is the published one |
| `HydraCache.ExecImageTrusted` | HydraDB/hash.c:83-173 | Addresses learnt before an operation can be trusted between any two of its writes |
| `HydraCache.CachedAddressDuring` | HydraDB/hash.c:83-173 | The guarantee after any run and in the middle of any next operation |
| `HydraWrites.InsertWrites` | HydraDB/hash.c:83-101 | An insertion writes the first slot not in use and the next item, field by field as stated, and nothing else |
| `HydraWrites.UpdateWrites` | HydraDB/hash.c:135-157 | An update marks the old item with 1, rewrites the slot and writes key and value of the next item, whose flag it leaves: the new item looks current exactly if that flag was 0 |
| `HydraWrites.DeleteWrites` | HydraDB/hash.c:159-173 | The deletion loop frees every slot of the bucket whose item names the key, wipes the key out of those items, and changes nothing else |
| `HydraWrites.InsertOrder` | HydraDB/hash.c:88-98 | The order of the writes of an insertion: the slot is in use before its item names the key, and the item names the key before it has the value |
| `HydraWrites.UpdateOrder` | HydraDB/hash.c:142-153 | The order of the writes of an update: from the third to the fifth write the slot points to an item that does not name the key |
| `HydraWrites.FreeOrder` | HydraDB/hash.c:167-168 | The order of the writes of a release: the slot is free before its item loses the key |
| `HydraWrites.ExecLast` | HydraDB/hash.c:83-173 | The writes of every operation lead to its result; an update counts its item after the last of them |
| `HydraInit.Loaded` | HydraDB/hash.c:185-196 | The initial load lays key k out in pool item k, row by row |
| `HydraInit.LoadedFinds` | HydraDB/hash.c:176-198 | After the load every key k other than 0 is found in item k with its value, size 1 if 32 divides k and else k modulo 32, and lease 1; the pool has room only if larger than the load |
| `HydraInit.ReadByKey` | HydraDB/main.c:273-279 | A client that reads pool item k for key k reads the current item exactly while it has flag 0 and names the key |
| `HydraTable.Table.Create` | HydraDB/hash.c:70-80 | The loops leave every slot with a null address, not in use, with lease 1 and its former size |
| `HydraTable.Table.FindFreeSlot` | HydraDB/hash.c:60-67 | The loop finds the specified slot, or -1 |
| `HydraTable.Table.Insert` | HydraDB/hash.c:83-101 | The in-place insertion yields the specified state, answer and memory images |
| `HydraTable.Table.Search` | HydraDB/hash.c:102-132 | The loop computes the specified answer |
| `HydraTable.Table.Update` | HydraDB/hash.c:135-157 | The in-place update yields the specified state, address and memory images |
| `HydraTable.Table.Delete` | HydraDB/hash.c:159-173 | The deletion loop yields the specified state and memory images |
| `HydraTable.Table.Initialize` | HydraDB/hash.c:176-198 | The load succeeds exactly for at most seven keys a bucket |
| `MetallocModel.Walk` | HydraDB/metalloc.c:291-317 | The forward walk ends at the target only if there is a header |
| `MetallocTiling.WalkFindsHeaders` | HydraDB/metalloc.c:291-317 | The forward walk finds exactly the headers that ever were, and runs off the end exactly when all lie below the target |
| `MetallocTiling.StartTiled` | HydraDB/metalloc.c:178-199 | The first header tiles the block |
| `MetallocTiling.SplitTiled` | HydraDB/metalloc.c:229-246 | An allocation with room appends a tile |
| `MetallocTiling.MergeTiled` | HydraDB/metalloc.c:386-393 | A release into a free predecessor takes the tile out and gives it its space |
| `MetallocTiling.MarkTiled` | HydraDB/metalloc.c:397-399 | A plain release leaves the tiles as they are |
| `MetallocRuns.TotalIsBlock` | HydraDB/metalloc.c:229-246 | Headers and sizes along the backward chain always sum to BLOCKSIZE |
| `MetallocRuns.BlocksDisjoint` | HydraDB/metalloc.c:229-262 | Chunks in use lie inside the block and overlap neither each other nor a header |
| `MetallocRuns.SwallowedInside` | HydraDB/metalloc.c:386-393 | A merged header lies inside the chunk of a free tile |
| `MetallocRuns.AllocationRefines` | HydraDB/metalloc.c:229-262 | An allocation enters one chunk into the ledger |
| `MetallocRuns.ReleaseRefines` | HydraDB/metalloc.c:384-401 | A release strikes exactly its chunk off the ledger |
| `MetallocRuns.AllocationKeepsIff` | HydraDB/metalloc.c:229-246 | An allocation keeps the tiling if and only if there is room for chunk and header |
| `MetallocRuns.FreeallocKeepsIff` | HydraDB/metalloc.c:291-401 | For any pointer: freealloc exits exactly for no header or a free one, and keeps the tiling exactly for chunks in use |
| `MetallocRuns.FreeallocByPointer` | HydraDB/metalloc.c:284-401 | In terms of the pointer: nothing happens before the first allocation; after it, the release goes through exactly for pointers one header behind a header not marked as free, and keeps the tiling exactly for those behind a chunk in use |
| `MetallocRuns.SwallowedReleaseBreaks` | HydraDB/metalloc.c:386-393 | A second release of a merged header passes and breaks the tiling |
| `MetallocRuns.SecondReleaseNoticed` | HydraDB/metalloc.c:376-393 | A double free is noticed exactly when the first release was not a merge |
| `MetallocRuns.RunRefines` | HydraDB/metalloc.c:172-417 | Over every run with enough space and no double free the block stays tiled and the chunks in use are those not yet released |
| `MetallocRuns.GrantsApart` | HydraDB/metalloc.c:172-417 | Over every run no two chunks handed out overlap, even after frees |
| `MetallocRuns.RoomIff` | HydraDB/metalloc.c:201-246 | An allocation of a run has room exactly when all chunks ever allocated and its own, with headers, and one header more fit the block: releases give nothing back |
| `MetallocFreeList.EntryWrites` | HydraDB/metalloc.c:116-141 | An insertion writes the first unused entry, a removal empties the first entry of its address, and nothing else changes |
| `MetallocFreeList.MergeWrites` | HydraDB/metalloc.c:69-82 | A merge writes the size of the predecessor's first entry and clears the address of the merged header's first entry |
| `MetallocFreeList.StartWrites` | HydraDB/metalloc.c:192-195 | The first list: the whole block, zeros as far as they are cleared, then what malloc returned |
| `MetallocFreeList.StartAgreesIff` | HydraDB/metalloc.c:192-195 | The first list agrees exactly when malloc returned zeros beyond the cleared entries |
| `MetallocFreeList.AllocationAgrees` | HydraDB/metalloc.c:245-246 | An allocation keeps the free list in agreement with the free headers |
| `MetallocFreeList.ReleaseAgreesIff` | HydraDB/metalloc.c:386-399 | A release keeps it exactly when it merges or an entry is unused |
| `MetallocFreeList.RunLists` | HydraDB/metalloc.c:51-141 | Over every run with capacity the entries are exactly the free headers, each once and with its size |
| `MetallocTable.Allocator.InsertFreeList` | HydraDB/metalloc.c:116-129 | The loop fills the first unused entry, or answers -1 |
| `MetallocTable.Allocator.RemoveFromFreeList` | HydraDB/metalloc.c:131-141 | The loop clears the first entry of the address, or answers -1 |
| `MetallocTable.Allocator.UpdateFreeList` | HydraDB/metalloc.c:69-82 | The loops resize one entry and drop the other |
| `MetallocTable.Allocator.Metalloc` | HydraDB/metalloc.c:172-262 | The in-place allocation yields the specified heap and pointer |
| `MetallocTable.Allocator.Freealloc` | HydraDB/metalloc.c:271-417 | The in-place release yields the specified heap, or ends as specified |
| `Credits.InitialInv` | Pilaf/main.c:138-141 | The posted receives establish the credit invariant |
| `Credits.StepKeeps` | Pilaf/main.c:155-573 | No step drops a message or waits for a completion that will not come, and each keeps the invariant |
| `Credits.CreditSafety` | Pilaf/main.c:138-573 | In every interleaving each SEND finds a posted receive, the counters equal the receives outstanding and stay between S_DEPTH and Q_DEPTH, and each blocking poll meets exactly one signalled operation |
| `Credits.Conservation` | Pilaf/main.c:487-538 | At every step there are exactly as many requests under way as slots in phase SEND_1, less the one just answered |
| `Credits.WorkShrinks` | Pilaf/main.c:155-195 | Each step of server or network leaves less work |
| `Credits.NoDeadlock` | Pilaf/main.c:487-489 | While the client waits, the server or the network can take a step |
| `Credits.WaitEnds` | Pilaf/main.c:487-489 | Some steps of server and network, no more than there is work, end the wait |
| `Credits.EveryWaitEnds` | Pilaf/main.c:487-489 | Every run of server and network steps is at most as long as there is work, and the client can go on when it is that long or cannot be continued |
| `CreditsHistory.LeadsIffTrace` | Pilaf/main.c:155-573 | Runs by their ends and runs with all their states are the same |
| `CreditsHistory.SlotLaw` | Pilaf/main.c:500-572 | At every moment and for every window slot the READs issued are 3 for each GET that needs two READs to find its key and 2 for each that needs one, less what its open request still needs, and the SENDs are its PUTs; operations go round the window in turn |
| `CreditsHistory.RequestLaw` | Pilaf/main.c:500-572 | Between taking one request and taking the next a slot issues exactly three READs, two READs, or one SEND |
| `CreditsHistory.SendLaw` | Pilaf/main.c:155-195 | The server counts its greeting and its replies, and owes exactly the requests it has polled and not answered |
| `CreditsHistory.SignalLaw` | Pilaf/main.c:179-192 | The signalled sends are those whose number is a multiple of the period; all but the one outstanding have been polled |
| `CreditsHistory.ServerBatchLaw` | Pilaf/main.c:168-173 | The server posts a batch of receives only after Q_DEPTH - S_DEPTH + 1 more requests have been polled |
| `CreditsHistory.ClientBatchLaw` | Pilaf/main.c:459-463 | The client posts a batch of receives only after Q_DEPTH - S_DEPTH + 1 more messages have been polled |
| `CreditsLoops.Connection.ServerTurn` | Pilaf/main.c:159-195 | One turn of the server's loop is a run of the protocol and answers each polled request once |
| `CreditsLoops.Connection.ClientTurn` | Pilaf/main.c:459-573 | One turn of the client's loop is a run of the protocol |

## Left out

- In the credit protocol one connection is modelled; a server's connections share nothing but its time. Messages
  lost for other reasons than a missing receive are not modelled, nor is the payload.
- The allocator's memory is a map from header addresses to headers, so writes of callers into their chunks, and a
  header written across another one when there is no room, are not modelled.
- In the cuckoo table only keys are modelled; an evicted key does not keep its own offset in the code, so there is
  nothing to relate. The other fields of an entry, and the CRC stored with it, are opaque.
- HydraTable.Table.Update: when the search finds nothing the code writes through a null pointer; the method returns the
  search's answer and writes nothing.
- HopscotchTable.Table.constructor: a table without hop bits, which the theorems about whole runs start from; the code's
  own initial state is HopscotchTable.Table.FromInit.
- The position of the inner `continue` and `break` in `hopscotch_insert` is kept by two helper methods, SearchMove and
  MakeRoom; the nested loops are not one method.
- `hopscotch_resize`: the new array is zero-filled while empty keys are -1, and the modulus is fixed, so it does not
  grow the table.
- `update_free_list` of type 0, `find_free`, `leekHarvest`, `metallurgilloc`, `alchemalloc`: not on the live path.
- ibverbs and socket code, queue-pair set-up, request and acknowledgement loops of FaRM and HydraDB, the wall-clock
  lease cache, printing, timing, workload files and the benchmarks of Memcached and Redis.
