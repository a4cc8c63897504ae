# A verified model of Pacer's cache, delivery and scatter core

Pacer is a node-local caching layer in front of an S3 backend. This project models the parts of it
whose correctness is hardest to see by reading, in Dafny 4.11, and proves what they promise.

- **The chunk store** (`LruIndex`, `SlotHeader`, `Layout`, `ChunkStore`, `LruCache`, `StoreRuns`,
  `StoreInterleaving`, `StoreUndisturbed`): an on-disk store of fixed-size slots with a recency list
  threaded through the slots. The linked list refines a sequence; the store over a disk of bytes
  refines a small LRU map; restarts recover the index; under every interleaving, torn write and crash
  what is served was given; and an operation nobody disturbs does there what it does alone.
- **Checksums** (`Crc`, `Base64`): CRC-32 (section 8 of RFC 1952) with its combine law, and the text
  form a digest travels in (section 4 of RFC 4648).
- **Formats** (`SlotHeader`, `Codec`, `Utf8Text`, `Text`, `Token`): the slot header page, the disk tier's
  chunk encoding, and the delivery-target descriptor that a client prints and the daemon parses.
- **Ranges and delivery** (`Chunks`, `Delivery`, `Quota`): byte ranges over the chunk grid, windows
  delivered into client memory in any order, and the ceiling on pinned memory.
- **The scattered PUT** (`Pipeline`, `Scatter`, `ScatterCopies`): cutting a body into windows, putting
  parts that finish in any order back together, and the protocol that stages, completes, invalidates
  and commits.
- **Bounded gates** (`Handles`, `Admission`, `Generations`, `Drain`): the address-handle LRU, the
  admission gate with its count-min sketch and crash-safe generations, and the write barrier.

`Common` and `Bytes` hold what everything else shares.

Code that updates fields or buffers in place is a class or a method on an array, proved against a
specification function on values; code that runs concurrently is a state machine whose events are
the atomic steps, and the main results hold for every sequence of events. `dafny verify
dfyconfig.toml` checks the whole project.

Where the code and its comments differ, the model follows the code:

- `TargetSpec::parse` is documented to require `offset`; the code takes a missing one as zero
  (`Token.MissingOffsetWitness`). It is missing exactly when no parameter names it
  (`Token.OffsetMissingIff`), and then counts as zero in every descriptor (`Token.MissingOffsetIsZero`).
- `install_rails` is documented to build at most once per distinct GID. A failed build is asked for again
  in the same pass (`Handles.FailedBuildIsRetried`), and so is a handle the pass itself evicted
  (`Handles.EvictedHandleIsRebuilt`). The sentence holds exactly when no GID is named twice
  (`Handles.BuiltOnceIffUnrepeated`), or, when every build succeeds, when no GID is named again after
  `bound` or more others (`Handles.BuiltOnceIffNear`).
- `scatter` is documented to fail a body that ends short of the promised length; only the number of
  windows is compared, so a body that ends short inside its last chunk, or runs over inside it, passes
  this check (`Pipeline.ShortTailUnnoticed`). `Pipeline.PutBody` says exactly which bodies pass.
- The admission budget bounds a window's bytes exactly when it is below the largest `u64` or windows
  hold one call each (`Admission.BudgetHoldsIff`); above that the comparison saturates.
- A failed save of the generation mark can repeat a generation (`Generations.FailedSaveRepeats`);
  `Generations.IncreasingIffFed` says exactly when generations increase.
- A removed key comes back after a restart while a header on disk names it
  (`StoreRuns.RemovedKeyReturnsIff`): removal is not durable.

Assumptions the model states rather than proves: header pages are written and read whole; a
notification wakes every waiter created before it; replacing a file by rename is atomic; the codec that
object headers are left to reads back what it wrote and does not look past what it reads; the disk
images met at a reopening name no key twice, where a result says so; and no two bodies that are
compared collide in CRC-32, where a result says so.

## Model

| member | source | states |
|---|---|---|
| `LruIndex.Index.UnlinkLinked` | crates/pacer-cache/src/store.rs:953-969 | the links spell the old order without the slot; keys and lengths of all slots stay |
| `LruIndex.Index.PushBack` | crates/pacer-cache/src/store.rs:972-980 | the links spell the old order with the slot at the most recent end |
| `LruIndex.Index.Occupy` | crates/pacer-cache/src/store.rs:983-990 | the slot is given to the key at the most recent end; a slot that was in hand, given to a key not held, restores the whole invariant |
| `LruIndex.Index.Evict` | crates/pacer-cache/src/store.rs:998-1005 | the slot leaves list and map together; a slot without a key is left alone |
| `LruIndex.Index.Touch` | crates/pacer-cache/src/store.rs:897-905 | a held key's slot moves to the back and is returned; any other key changes nothing |
| `LruIndex.Index.Claim` | crates/pacer-cache/src/store.rs:912-928 | takes the free top or else the least recent slot, refuses only a key already held, and keeps the invariant |
| `LruIndex.Index.Forget` | crates/pacer-cache/src/store.rs:935-942 | a held slot goes to the top of the free stack; a free one is not freed twice |
| `LruIndex.Index.Remove` | crates/pacer-cache/src/store.rs:875-884 | a held key loses its slot to the free stack and the answer says whether it was held |
| `LruIndex.HeldPlusFree` | crates/pacer-cache/src/store.rs:875-1006 | the recency order and the free stack together account for every slot exactly once |
| `LruIndex.TouchKeeps` | crates/pacer-cache/src/store.rs:897-905 | touching keeps the index invariant |
| `LruIndex.ClaimKeeps` | crates/pacer-cache/src/store.rs:912-928 | claiming keeps the index invariant, and fails only for a held key when there is a slot at all |
| `LruIndex.ForgetKeeps` | crates/pacer-cache/src/store.rs:935-942 | forgetting keeps the index invariant |
| `LruIndex.ClaimShape` | crates/pacer-cache/src/store.rs:912-928 | a claimed slot is in range, none of the staying ones, last in the order, and the staying slots keep their keys |
| `LruIndex.BridgedSpells` | crates/pacer-cache/src/store.rs:953-969 | the three link writes of an unlink leave a list that spells the order without that slot, from both ends |
| `LruIndex.HungSpells` | crates/pacer-cache/src/store.rs:972-980 | the link writes of a push leave a list that spells the longer order |
| `Layout.SlotInBounds` | crates/pacer-cache/src/store.rs:139-158 | both ranges of every slot lie inside its extent, header region first |
| `Layout.SlotAddress` | crates/pacer-cache/src/store.rs:65-158 | where the header page and the body of every slot begin: extents of 4096 slots, their pages in the first 16 MiB |
| `Layout.SlotsDisjoint` | crates/pacer-cache/src/store.rs:139-158 | no header or body range of one slot meets any header or body range of another |
| `Layout.PutHeaderFrame` | crates/pacer-cache/src/store.rs:1182-1200 | writing one header page changes that page and nothing any other slot reads |
| `Layout.PutBodyFrame` | crates/pacer-cache/src/store.rs:1182-1200 | writing one body changes the front of that body area and nothing any other slot reads |
| `Layout.RegionEntry` | crates/pacer-cache/src/store.rs:1217-1237 | the entries of an extent's header region are its slots' header pages |
| `SlotHeaders.WriteTo` | crates/pacer-cache/src/slot.rs:156-191 | whatever the page held, it ends up as the header's page, exactly when the key has at most 3816 bytes and the tag at most 256; otherwise the header is refused |
| `SlotHeaders.PageLayout` | crates/pacer-cache/src/slot.rs:42-102 | byte for byte where a written page holds its magic, version, lengths, checksum, key and tag, and zeros behind them |
| `SlotHeaders.ParseOfPage` | crates/pacer-cache/src/slot.rs:209-249 | what a written page reads back as, for every header that fits: damage without a key or with too long a body, an empty tag as none |
| `SlotHeaders.RoundTripIff` | crates/pacer-cache/src/slot.rs:156-249 | a header survives its page exactly when it has a key, its body fits the slot and its tag is not the empty one |
| `SlotHeaders.AcceptedPageRewrites` | crates/pacer-cache/src/slot.rs:209-249 | any accepted page already holds, up to the end of key and tag, the bytes writing its header would put there |
| `SlotHeaders.ZeroPageIsFree` | crates/pacer-cache/src/slot.rs:209-249 | an all-zero page is a free slot, not damage |
| `Utf8Text.ValidIffEncoded` | crates/pacer-cache/src/slot.rs:209-249 | a key or tag passes for text exactly when its bytes are the UTF-8 (section 3 of RFC 3629) of some string of Unicode scalar values |
| `ChunkStores.ChunkStore.Open` | crates/pacer-cache/src/store.rs:1416-1447 | opening over any disk with distinct parsable keys gives a valid store whose index is the scan's |
| `ChunkStores.ChunkStore.Scan` | crates/pacer-cache/src/store.rs:1416-1447 | the in-place scan leaves the index that the headers spell |
| `ChunkStores.ChunkStore.ScanExtent` | crates/pacer-cache/src/store.rs:1217-1237 | one extent's headers, slot by slot, a free or damaged one as none |
| `ChunkStores.ChunkStore.ReadHeader` | crates/pacer-cache/src/store.rs:1084-1100 | reads exactly the slot's own header page, or reports the failed read |
| `ChunkStores.ChunkStore.ReadBody` | crates/pacer-cache/src/store.rs:1107-1129 | the rounded direct read stays inside the slot and returns the front of its body, or reports the failed read |
| `ChunkStores.ChunkStore.ReadSlot` | crates/pacer-cache/src/store.rs:1044-1077 | header first, then one body read only for the right key: gives what the slot holds for the key, checked and trimmed, or the error of a read that was made |
| `ChunkStores.ChunkStore.ReadOverlapped` | crates/pacer-cache/src/store.rs:765-808 | both reads at once give the same answer as one after the other, and fail if either read does |
| `ChunkStores.ChunkStore.Get` | crates/pacer-cache/src/store.rs:702-753 | index and answer are the specified step's: an unreadable chunk's slot is forgotten, a failed read is reported and forgets nothing, and the invariant is kept |
| `ChunkStores.ChunkStore.WriteSlot` | crates/pacer-cache/src/store.rs:1182-1200 | body then header land in the slot; nothing is written when the header does not fit; a failing body write, sync or header write leaves only what that stage left |
| `ChunkStores.ChunkStore.Put` | crates/pacer-cache/src/store.rs:824-863 | index, disk and answer are the specified step's: over-long bodies refused, held keys left alone, the slot forgotten when the header does not fit or any write fails |
| `ChunkStores.ChunkStore.Remove` | crates/pacer-cache/src/store.rs:875-884 | the key's slot is freed and the disk is untouched |
| `ChunkStores.SlotWrittenReads` | crates/pacer-cache/src/store.rs:1044-1200 | a written slot reads as what was written, checked or not, and every other slot reads as before |
| `ChunkStores.TornElsewhere` | crates/pacer-cache/src/store.rs:1182-1200 | whatever a failed write leaves behind, every other slot reads as before |
| `ChunkStores.GetRefines` | crates/pacer-cache/src/store.rs:702-753 | a get on index and disk is a get on the LRU map they stand for; an error is reported only for a held key under a failed read, and keeps the entry |
| `ChunkStores.PutRefines` | crates/pacer-cache/src/store.rs:824-863 | a put on index and disk is a first-write-wins put on the LRU map of that capacity, failing writes included |
| `ChunkStores.RemoveRefines` | crates/pacer-cache/src/store.rs:875-884 | a remove on the index is a remove on the LRU map |
| `ChunkStores.ScannedShape` | crates/pacer-cache/src/store.rs:1416-1447 | a scan holds exactly the parsable slots in slot order and frees exactly the rest |
| `ChunkStores.ScannedMap` | crates/pacer-cache/src/store.rs:1416-1447 | after a scan the map names, for each key, the last slot whose header claims it |
| `ChunkStores.ScannedValidIff` | crates/pacer-cache/src/store.rs:1416-1447 | a scan establishes the whole index invariant exactly when no two headers name the same key |
| `LruCache.PutThenGet` | crates/pacer-cache/src/store.rs:702-863 | in the reference cache a new key of up to 3816 bytes with a tag of up to 256 and a body that fits is accepted and read back, an empty tag as none |
| `StoreRuns.RunRefines` | crates/pacer-cache/src/store.rs:702-884 | every answer of every sequential run, with any reads and writes failing, is the reference LRU cache's answer, and a read is reported as failed only where one failed |
| `StoreRuns.PutThenGet` | crates/pacer-cache/src/store.rs:702-863 | on index and disk bytes, every new key of 1 to 3816 bytes, tag of up to 256 and body of up to a chunk is accepted when no write fails, and the next get returns exactly that pair, an empty tag as none |
| `StoreRuns.RestartRecoversIff` | crates/pacer-cache/src/store.rs:1416-1447 | a restart recovers the key-to-slot map exactly when the headers on disk name the slots the index holds |
| `StoreRuns.OpenedAgrees` | crates/pacer-cache/src/store.rs:1416-1447 | a store just opened over distinct keys holds exactly what the headers on disk name |
| `StoreRuns.CleanRunSurvivesRestart` | crates/pacer-cache/src/store.rs:702-863 | after any run of hits, misses, failed reads and successful writes a restart recovers exactly the map the store had |
| `StoreRuns.RemovedKeyReturnsIff` | crates/pacer-cache/src/store.rs:875-884 | a removed key is held again after a restart exactly when a header on disk still names it |
| `StoreRuns.RemovedKeyReturns` | crates/pacer-cache/src/store.rs:875-884 | so a key that disk and index agreed on is always back after its removal and a restart |
| `StoreInterleaving.FreshInv` | crates/pacer-cache/src/store.rs:1416-1447 | a store just opened over files that hold no header starts every run in the invariant |
| `StoreInterleaving.EveryRunSafe` | crates/pacer-cache/src/store.rs:702-942 | under every interleaving of lock sections and I/O, torn bodies, crashes and reopenings, the index invariant holds and what is served was given to a put of that key |
| `StoreInterleaving.UncheckedServesMixed` | crates/pacer-cache/src/store.rs:1155-1173 | with checking off there is a collision-free run that serves a chunk its key was never given |
| `StoreInterleaving.SafeIffChecked` | crates/pacer-cache/src/store.rs:702-863 | every run serves only what was given exactly when bodies are checked, or have no bytes at all |
| `StoreInterleaving.HeaderAfterBody` | crates/pacer-cache/src/store.rs:1182-1200 | in every run a header page is written only for a put whose body was written and synced before |
| `StoreInterleaving.TornBodyIsAny` | crates/pacer-cache/src/store.rs:1182-1200 | until then the area of a put under way may hold any bytes, and nothing else is touched |
| `StoreInterleaving.CrashReopens` | crates/pacer-cache/src/store.rs:1416-1447 | after a crash that leaves any pages ever written, over any bodies, the reopened store holds exactly the keys those pages name, each in its page's slot |
| `StoreUndisturbed.HeldGetAlone` | crates/pacer-cache/src/store.rs:702-808 | in every reachable state an undisturbed get of a held key, one read after the other or both at once, serves the front of that slot's body under the tag in its header when the header is the key's and the checksum agrees or is not asked for; otherwise it misses and forgets that slot alone |
| `StoreUndisturbed.GetAloneRefines` | crates/pacer-cache/src/store.rs:702-753 | in every reachable state the four steps of an undisturbed get answer and leave what the get of the LRU map answers and leaves, whatever other gets and puts are under way |
| `StoreUndisturbed.PutAloneRefines` | crates/pacer-cache/src/store.rs:824-863 | in every reachable state the three steps of an undisturbed put answer and leave what the first-write-wins put of the LRU map answers and leaves |
| `StoreUndisturbed.PutThenGetServes` | crates/pacer-cache/src/store.rs:702-863 | so, in every reachable state, an undisturbed put of a new key within the bounds followed by an undisturbed get serves exactly that pair, checking on or off |
| `Crc.HasherOfIsCrc` | crates/pacer-cache/src/slot.rs:269-273 | the running hasher over a whole string is that string's CRC-32 and length |
| `Crc.CrcOfConcat` | crates/pacer-daemon/src/delivery.rs:1020-1038 | the checksum of two strings side by side from their checksums and the second length |
| `Crc.CombineLaw` | crates/pacer-daemon/src/delivery.rs:1036-1038 | combining the hashers of two strings is the hasher of their concatenation |
| `Crc.OneByteDetected` | crates/pacer-cache/src/store.rs:1155-1173 | changing any one byte of a body always changes its checksum |
| `Crc.PolynomialTerms` | crates/pacer-cache/src/slot.rs:269-273 | the generator has exactly the terms section 8 of RFC 1952 gives it |
| `Crc.OnesSet` | crates/pacer-cache/src/slot.rs:269-273 | the register starts with all bits set and every bit of the result is turned over |
| `Crc.TopBitDivides` | crates/pacer-cache/src/slot.rs:269-273 | the byte 0x80 fed to an empty register leaves the generator itself |
| `Crc.TableRegisterIsRegister` | crates/pacer-cache/src/slot.rs:269-273 | the byte-at-a-time table form of section 8 of RFC 1952 computes the same register |
| `Base64.DecodeOfEncode` | crates/pacer-daemon/src/coordinate.rs:1367-1386 | the text of a checksum decodes to that checksum, for every 32-bit value |
| `Base64.EncodeOfDecode` | crates/pacer-daemon/src/coordinate.rs:1367-1386 | only the text of a checksum decodes: any other string is refused |
| `Base64.EncodeByShifts` | crates/pacer-daemon/src/coordinate.rs:1367-1386 | the shift-and-mask loop produces the base64 of the four bytes with padding |
| `Base64.CharacterInAlphabet` | crates/pacer-daemon/src/coordinate.rs:1367-1386 | every six-bit digit is written as the character at its place in the alphabet of RFC 4648 |
| `Codec.SizeIsExact` | crates/pacer-cache/src/codec.rs:177-194 | the estimated size of a value is its encoding's length |
| `Codec.EncodingLayout` | crates/pacer-cache/src/codec.rs:57-135 | byte for byte what is written: the tag in four bytes, each length in eight before the bytes it counts |
| `Codec.RoundTripIff` | crates/pacer-cache/src/codec.rs:104-172 | a value comes back from its encoding, and the bytes behind it are left, exactly when a chunk's body and tag are within the decoder's bounds; headers always come back |
| `Codec.OnlyEncodingsDecode` | crates/pacer-cache/src/codec.rs:145-265 | whatever decodes as a chunk is the encoding of the chunk it gives, followed by the bytes left |
| `Codec.DecodingMore` | crates/pacer-cache/src/codec.rs:145-265 | the decoder never looks past what it reads: bytes appended behind are left behind |
| `Codec.StrictPrefixFails` | crates/pacer-cache/src/codec.rs:145-265 | no strict prefix of an encoding decodes, of a chunk or of a header |
| `Codec.Writer.Encode` | crates/pacer-cache/src/codec.rs:104-135 | writing field by field appends exactly the encoding |
| `Codec.Reader.ReadPrefixed` | crates/pacer-cache/src/codec.rs:215-265 | a bounded length and that many bytes are consumed, or the length or the shortage is reported |
| `Codec.Reader.Decode` | crates/pacer-cache/src/codec.rs:145-172 | reading field by field gives the specified value, header or chunk, and leaves the specified rest, or the same error |
| `Text.SplitOfJoin` | crates/pacer-daemon/src/delivery.rs:448-518 | splitting undoes joining for pieces free of the separator |
| `Text.ParseOfDigits` | crates/pacer-daemon/src/delivery.rs:669-676 | a printed number reads back as itself in its radix exactly when it fits |
| `Text.ParseOfVariants` | crates/pacer-daemon/src/delivery.rs:669-676 | a number reads back in upper or lower case and behind one plus sign; nothing or a sign alone is no number |
| `Text.DecimalIff` | crates/pacer-daemon/src/delivery.rs:669-676 | a text is read as a decimal number only if it is all digits |
| `Text.HexIff` | crates/pacer-daemon/src/delivery.rs:669-676 | and as a hexadecimal one only if it is all digits and letters to F |
| `Text.TrimPadded` | crates/pacer-daemon/src/delivery.rs:448-518 | trimming takes exactly the surrounding Unicode white space off |
| `Text.SpacesAre` | crates/pacer-daemon/src/delivery.rs:448-518 | the 25 characters that count as white space |
| `Token.RenderGid` | crates/pacer-client/src/token.rs:101-107 | the loop renders two lower-case digits a byte, in order |
| `Token.ParseOfHexGid` | crates/pacer-daemon/src/delivery.rs:593-613 | a rendered GID parses back to the same bytes |
| `Token.ReadRails` | crates/pacer-daemon/src/delivery.rs:547-583 | the rail loop stops at the first bad, repeated or surplus entry, as specified |
| `Token.ReadBody` | crates/pacer-daemon/src/delivery.rs:464-518 | the parameter loop and the checks behind it give the descriptor that the laws of `Token.Parse` below are about, or refuse it |
| `Token.RenderedParsesIff` | crates/pacer-client/src/token.rs:57-95 | rendering fails exactly for no rails, too many, or no length; what is rendered parses to the same address, offset, length, flag and rails exactly when no two rails name one endpoint |
| `Token.AcceptedIsMeaningful` | crates/pacer-daemon/src/delivery.rs:448-518 | whatever is accepted has a positive length and either a segment name that is not empty, holds no slash and no NUL and is neither `.` nor `..`, or 1 to 64 distinct rails that render again and parse to the same descriptor |
| `Token.ParametersCommute` | crates/pacer-daemon/src/delivery.rs:468-480 | exchanging neighbouring parameters of different names changes nothing |
| `Token.OffsetMissingIff` | crates/pacer-daemon/src/delivery.rs:468-480 | the offset of an accepted parameter list is missing exactly when no parameter names it |
| `Token.MissingOffsetIsZero` | crates/pacer-daemon/src/delivery.rs:448-518 | a descriptor that names no offset, accepted or not, parses exactly as the same one with an offset of zero appended |
| `Token.SegmentParsesIff` | crates/pacer-daemon/src/delivery.rs:448-645 | for every name free of `;` and every positive length, the descriptor is accepted, from offset zero and checked, exactly when the name without its leading slashes is one path component |
| `Token.SegmentChecksumIff` | crates/pacer-daemon/src/delivery.rs:448-662 | with a checksum parameter behind it, `crc32` keeps bodies checked, `none` turns checking off, and every other value is refused |
| `Token.SegmentWithRailsRefused` | crates/pacer-daemon/src/delivery.rs:448-518 | a segment descriptor that names rails is refused, whatever they are |
| `Token.MissingOffsetWitness` | crates/pacer-daemon/src/delivery.rs:430-447 | one such descriptor, although the parameter is documented as required |
| `Chunks.ResolvesToSelected` | crates/pacer-cache/src/lib.rs:754-787 | a range resolves exactly when it is satisfiable, to exactly the positions section 14.1.2 of RFC 9110 selects |
| `Chunks.CoveringMeets` | crates/pacer-cache/src/chunk.rs:263-272 | the covering chunks are exactly those that overlap the range |
| `Chunks.CoveringReproduces` | crates/pacer-cache/src/chunk.rs:195-295 | the covering chunks' slices side by side are the requested bytes, and no other chunk contributes any |
| `Chunks.RangeReproduced` | crates/pacer-cache/src/lib.rs:754-787 | the same from a byte-range request: what it selects is what the covering chunks reproduce |
| `Chunks.CountMatchesBounds` | crates/pacer-cache/src/chunk.rs:277-295 | a chunk has bounds exactly when the count covers it or it is the empty object's only chunk |
| `Chunks.CountReaches` | crates/pacer-cache/src/chunk.rs:277-279 | the chunk count covers exactly the chunks that start inside the object |
| `Chunks.NoOverflow` | crates/pacer-cache/src/chunk.rs:263-295 | no step of the grid arithmetic leaves 64 bits while object length plus one chunk fits |
| `Delivery.ChunkWindows` | crates/pacer-daemon/src/delivery.rs:1129-1155 | the loop yields windows that tile the destination in order, each marked whole exactly when it is its chunk's entire body |
| `Delivery.OwnerUnique` | crates/pacer-daemon/src/delivery.rs:1129-1155 | every destination byte belongs to exactly one window |
| `Delivery.MappedTarget.CopyIn` | crates/pacer-daemon/src/delivery.rs:914-927 | exactly the addressed bytes of the window change |
| `Delivery.MappedTarget.DigestWindow` | crates/pacer-daemon/src/delivery.rs:958-971 | the digest is the CRC-32 of the bytes that lie there |
| `Delivery.Deliver` | crates/pacer-daemon/src/delivery.rs:914-927 | delivering every window once, in any order, leaves the requested bytes in the window and everything outside untouched |
| `Delivery.DigestDelivery` | crates/pacer-daemon/src/delivery.rs:1036-1038 | absorbing the windows' digests in order is the digest of the whole delivery |
| `Quota.StepKeeps` | crates/pacer-daemon/src/delivery.rs:714-762 | each atomic step keeps the counter equal to the live reservations and below the ceiling |
| `Quota.EveryRunBounded` | crates/pacer-daemon/src/delivery.rs:714-871 | in every interleaving, lost exchanges and failing opens included, the counter is the sum of live permits, within the ceiling, and mapped windows lie in their segment |
| `Quota.AllEndedReleases` | crates/pacer-daemon/src/delivery.rs:834-871 | once every request has ended, served or refused, nothing stays reserved |
| `Quota.RefusedExactly` | crates/pacer-daemon/src/delivery.rs:714-736 | at its first look a request is refused exactly for an overflowing window, its own ceiling, or the node ceiling against live permits, with that reason and in that order |
| `Quota.ExchangeDecides` | crates/pacer-daemon/src/delivery.rs:724-745 | an exchange that is not spurious succeeds exactly when the counter is still the one read, and otherwise judges the new one |
| `Quota.MapDecides` | crates/pacer-daemon/src/delivery.rs:834-871 | a reserved window is mapped exactly when a segment is found and is long enough, and otherwise ends unusable; either way exactly its reservation is released |
| `Quota.EveryRunCanEnd` | crates/pacer-daemon/src/delivery.rs:714-871 | from every run there are steps that end every request, and then nothing is reserved |
| `Handles.HeldStep` | crates/pacer-client/src/handles.rs:309-412 | renewing or inserting one name, with eviction, is what the longer history's most recent names are |
| `Handles.HeldIffRecent` | crates/pacer-client/src/handles.rs:381-412 | a name is held exactly when fewer than `bound` other distinct names were named since it was |
| `Handles.NothingLostWithinBound` | crates/pacer-client/src/handles.rs:381-412 | while no more than `bound` distinct names occur, every one of them is held |
| `Handles.BuiltOnceIffUnrepeated` | crates/pacer-client/src/handles.rs:300-351 | whatever was held and whatever fails, each handle is asked for at most once exactly when no writer is named twice |
| `Handles.BuiltOnceIffNear` | crates/pacer-client/src/handles.rs:300-412 | when every handle can be built, each is built at most once, whatever was held, exactly when successive namings of a writer have fewer than `bound` others between them |
| `Handles.BuiltAtMostOnce` | crates/pacer-client/src/handles.rs:300-351 | when every handle can be built, naming no more than `bound` writers is enough for each to be built at most once |
| `Handles.FailedBuildIsRetried` | crates/pacer-client/src/handles.rs:300-351 | one pass asks twice for a handle that could not be built |
| `Handles.EvictedHandleIsRebuilt` | crates/pacer-client/src/handles.rs:300-412 | one pass builds twice a handle it evicted itself, although every build succeeds |
| `Handles.HandleCache.constructor` | crates/pacer-client/src/handles.rs:249-258 | an empty cache whose bound is at least one |
| `Handles.HandleCache.Oldest` | crates/pacer-client/src/handles.rs:384-389 | whatever order the entries are visited in, the least stamp is the least recently named |
| `Handles.HandleCache.MakeRoom` | crates/pacer-client/src/handles.rs:381-412 | exactly the oldest names beyond `bound - 1` go, each counted |
| `Handles.HandleCache.InstallOne` | crates/pacer-client/src/handles.rs:309-351 | a held name is renewed, any other is created if it can be built and failed if not; one name goes exactly when a creation finds the cache full |
| `Handles.HandleCache.InstallRails` | crates/pacer-client/src/handles.rs:309-351 | with any build failures the cache holds the `bound` most recent of the names held or built, created is held plus evicted, every handle asked for is counted as created or failed, and failed counts exactly those that could not be built |
| `Admission.EstimateBounds` | crates/pacer-cache/src/admission.rs:97-105 | for every hash the estimate never falls short of the saturated count, and is exact unless the key collides in every row |
| `Admission.CountMinSketch.Increment` | crates/pacer-cache/src/admission.rs:97-105 | each counter is the saturated number of fetches that hash to it since the last clear, and the least of the key's is returned |
| `Admission.CountMinSketch.Clear` | crates/pacer-cache/src/admission.rs:108-110 | clearing starts the fetch history over |
| `Admission.AdmittedKeys.Insert` | crates/pacer-cache/src/admission.rs:214-226 | a tracked key keeps its place and takes the new generation; a new one goes last and the oldest makes way at capacity |
| `Admission.AdmissionGate.AdmitAt` | crates/pacer-cache/src/admission.rs:355-379 | window, tally, verdict, generation and file are the specified ones; a refused call takes no generation and writes nothing |
| `Admission.AdmissionGate.NextGeneration` | crates/pacer-cache/src/admission.rs:387-397 | the counter advances by one, and the block it opens is in the file when it returns, if there is a file and it can be written |
| `Admission.AdmissionGate.constructor` | crates/pacer-cache/src/admission.rs:282-336 | a gate resumes from the mark in its state file, or from zero without one |
| `Admission.EveryRunJudged` | crates/pacer-cache/src/admission.rs:355-379 | in every run a call is hot exactly when in each of four rows of 2048 counters enough of its window's fetches share its counter, so the K-th fetch of a key always is; it is admitted exactly when hot and within what the window has left, and no window exceeds the budget |
| `Admission.WindowsFollowTime` | crates/pacer-cache/src/admission.rs:355-364 | in every run the clock alone numbers the windows: a call opens the next one exactly when the current one began at least a window length ago, and a window begins with its first call, the first with the gate |
| `Admission.LargestBudgetOverrun` | crates/pacer-cache/src/admission.rs:367-371 | with the largest budget a window can admit more than it, because the comparison saturates |
| `Admission.BudgetHoldsIff` | crates/pacer-cache/src/admission.rs:355-379 | the budget bounds every window of every run exactly when it is below the largest 64-bit value or each window holds one call |
| `Generations.LoadOfSaved` | crates/pacer-cache/src/admission.rs:151-184 | a saved mark loads as itself |
| `Generations.GenerationsNeverRepeat` | crates/pacer-cache/src/admission.rs:324-397 | across processes and crashes anywhere, while saves succeed and nothing wraps, generations strictly increase, the file bounds them, and a process saves at most once per block of 1024 |
| `Generations.IncreasingIffFed` | crates/pacer-cache/src/admission.rs:324-397 | whatever saves fail, while nothing wraps, generations strictly increase exactly when no process that goes on to return one booted from a mark below the last returned by then |
| `Generations.FailedSaveRepeats` | crates/pacer-cache/src/admission.rs:160-168 | after a failed save a restarted process returns the same generation again |
| `Generations.CrashedSave` | crates/pacer-cache/src/admission.rs:160-397 | after a crash during a save the next process returns either the generation that was about to be returned or the first behind the whole block of 1024 |
| `Drain.DrainIsABarrier` | crates/pacer-cache/src/store_engine.rs:358-438 | in every interleaving the count is the outstanding writes, a returned drain saw every write enqueued by then finish, and no unsignalled waiter is parked with nothing in flight and no notification to come |
| `Drain.SettledDrains` | crates/pacer-cache/src/store_engine.rs:358-366 | once every write has settled each drainer returns after its next few steps |
| `Drain.EveryRunCanSettle` | crates/pacer-cache/src/store_engine.rs:358-438 | from every interleaving there are steps that settle every write; then the count is zero, every drainer returns within two steps, and a new one at once, having seen every write |
| `Pipeline.WindowSplitter.Push` | crates/pacer-daemon/src/scatter.rs:482-488 | what is held grows by exactly the frame |
| `Pipeline.WindowSplitter.DrainExact` | crates/pacer-daemon/src/scatter.rs:546-562 | exactly the asked number of bytes come off the front, across buffer boundaries |
| `Pipeline.WindowSplitter.TakeWindow` | crates/pacer-daemon/src/scatter.rs:502-521 | a full window off the front exactly when one is held |
| `Pipeline.WindowSplitter.TakeTail` | crates/pacer-daemon/src/scatter.rs:532-539 | everything left, once, and nothing if nothing is |
| `Pipeline.WindowsAreChunks` | crates/pacer-daemon/src/scatter.rs:84-109 | however the body was framed, the emitted windows are exactly its chunks on the grid |
| `Pipeline.SameCountIff` | crates/pacer-daemon/src/coordinate.rs:557-563 | a body length passes for a promised one exactly when both reach the same chunks |
| `Pipeline.ShortTailUnnoticed` | crates/pacer-daemon/src/coordinate.rs:557-563 | for every chunk size above one and every last chunk, a body one byte into it has the window count of one that fills it |
| `Pipeline.PartsInOrder` | crates/pacer-daemon/src/coordinate.rs:691-708 | in whatever order parts finish, sorting gives part numbers 1 to n, each once, with the windows' digests in body order |
| `Pipeline.FoldIsHash` | crates/pacer-daemon/src/coordinate.rs:1351-1359 | digests folded in part order are the digest of the whole body |
| `Pipeline.WholeObjectCrc` | crates/pacer-daemon/src/coordinate.rs:1351-1359 | the sort and the fold give the CRC-32 of the body however the parts were ordered |
| `Pipeline.ClaimPassesIff` | crates/pacer-daemon/src/coordinate.rs:442-454 | whatever string a client claims, it passes exactly when it decodes to the body's checksum |
| `Pipeline.Uploads.Dispatch` | crates/pacer-daemon/src/coordinate.rs:632-687 | the next window gets the next part number, or is refused when the plan has no more |
| `Pipeline.Uploads.DrainWindows` | crates/pacer-daemon/src/coordinate.rs:573-587 | every full window held is dispatched, nothing is lost while finished uploads are collected |
| `Pipeline.Uploads.FinishBody` | crates/pacer-daemon/src/coordinate.rs:549-565 | the rest is dispatched, every upload is awaited, and the parts are one each for the plan's windows; an upload is blamed only if one fails |
| `Pipeline.Uploads.Drive` | crates/pacer-daemon/src/coordinate.rs:501-565 | works out exactly when the body is intact, has the planned number of windows and no upload fails; then parts 1 to n lie over its chunks and the digest is the body's CRC-32 |
| `Pipeline.PutBody` | crates/pacer-daemon/src/coordinate.rs:424-708 | a PUT of a promised length is driven to Complete exactly when the body is intact, reaches the same chunks as the promise, and no upload fails; then part i + 1 carries the digest of chunk i, in order |
| `Scatter.TaskStepKeeps` | crates/pacer-daemon/src/coordinate.rs:1119-1184 | a window's task, acting even after the coordinator gave up, keeps the protocol invariant |
| `Scatter.CoordinatorStepKeeps` | crates/pacer-daemon/src/coordinate.rs:424-469 | every coordinator step, with requests lost before or after they took effect, keeps the protocol invariant |
| `Scatter.EveryRunSafe` | crates/pacer-daemon/src/coordinate.rs:424-893 | nothing is visible before the backend completed the upload; every commit follows an invalidation at every planned home but the holder; a good end commits at every owner; a failed one commits nowhere and tells every peer ever offered a window to discard |
| `Scatter.BookedAsTaken` | crates/pacer-daemon/src/coordinate.rs:1119-1184 | in every run a window is booked to a node exactly when the last move of its task was that an offer sent to that node, a planned home, was taken, and to nobody exactly when its last move was an upload from here |
| `Scatter.PublishedIsVisible` | crates/pacer-daemon/src/coordinate.rs:757-893 | once published, with commits delivered and no copy dropped, every window is visible at the home that took it, or here if it was uploaded here |
| `Scatter.FailedLeavesNothing` | crates/pacer-daemon/src/coordinate.rs:1007-1050 | once a failed upload is unwound, with discards delivered and nothing staged behind its back, no node holds a staged copy |
| `Scatter.EveryPlanCanPublish` | crates/pacer-daemon/src/coordinate.rs:424-893 | every plan has such a run that publishes, each window taken by its first home where that is a peer |
| `ScatterCopies.VisibleIff` | crates/pacer-daemon/src/coordinate.rs:757-893 | in every run a copy is visible exactly when its own node committed it while it was held back there, or a reader fetched it from the completed object, and neither an eviction nor a delivered invalidation took it away since |
| `ScatterCopies.HeldBackIff` | crates/pacer-daemon/src/coordinate.rs:1007-1184 | in every run a copy is held back exactly when this node staged it for its own upload or a peer staged it for an offer sent to it, and no commit, discard, failure or timeout ended that since |
| `ScatterCopies.RefusedOfferIsKept` | crates/pacer-daemon/src/coordinate.rs:1119-1184 | a window whose offer fails can still be uploaded from here and is then held back here |
| `ScatterCopies.EveryUploadCanFail` | crates/pacer-daemon/src/coordinate.rs:1007-1050 | every upload that has not completed can still be given up, or have its completion fail with or without effect, and be unwound to the end |
| `Scatter.CollectStale` | crates/pacer-daemon/src/coordinate.rs:813-841 | from parts in any order, exactly the planned homes that do not hold the fresh bytes |
| `Scatter.DistinctOwners` | crates/pacer-daemon/src/coordinate.rs:1103-1111 | the owners that took a window, each once |
| `Scatter.CollectOffered` | crates/pacer-daemon/src/coordinate.rs:1040-1050 | every peer a window could have been offered to, each once, this node left out |

## Left out

- Panicking or cancelled I/O tasks in the chunk store: a read or write either takes effect, fails with an error, or, in `StoreInterleaving`, is cut short by a crash.
- Direct I/O, preallocation, aligned buffers, registered frames and memory mapping: the disk is bytes, and only offsets and lengths matter.
- The 32-bit width of slot numbers, and of the handle cache's clock and counters in 64 bits: unbounded here.
- Drain.DrainIsABarrier: for fewer than 2^64 writes over the engine's life, the range of its counter.
- Drain.SettledDrains: for the same runs.
- Drain.EveryRunCanSettle: for the same runs.
- The internals of foyer, bincode, tokio, gRPC and the AWS SDK: atomic steps with the assumptions stated above.
- crc32fast's combine by matrix powers: modelled as the shift past that many zero bytes, which is what it computes.
- Codec.SizeIsExact: takes the size of a header as the length its own codec writes; the fallback when that codec declines to size one is not modelled.
- What object headers hold, and the header write after Complete: their bytes belong to another codec.
- The digest a peer reports for client-registered memory: taken as given; only combining is modelled.
- The floating-point product behind the admission budget: the budget is a parameter.
- Staging budgets, racing uploads of one key and the saturation tracker: an offer may be refused at any time.
- The engine's hash-to-key map, and writers that fail while a chunk is encoded: lookups and error plumbing around the modelled parts.
- The concurrency limits of uploads and invalidations: any number may be in flight.
- Two processes on one generation file at the same time: processes follow one another.
- Metrics, logging, statistics, configuration parsing, retries, cgroup and disk statistics, authorization, the operator, and the RDMA, CUDA and C interface files: plumbing or foreign calls that would only add easy members.
