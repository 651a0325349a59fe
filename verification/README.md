# Verified models of wiinandfuse and libwc24

Dafny models of the parts of these Wii tools whose correctness is hardest to see, with machine-checked proofs.
`dafny verify dfyconfig.toml` checks all of it. Code that the repository writes as loops over arrays and fields is
modelled as methods on arrays and classes, each proved against functions on sequences; what the code promises is then
stated about those functions or about the state that every method keeps.

| part | files | what is modelled |
|---|---|---|
| allocator | `Malloc*.dfy` | dlmalloc 2.8.3 as compiled for the Wii: tags, small bins, tries, designated victim, top, one growing segment; and any caller of it |
| FAT file system | `Fat*.dfy` | FatFs R0.07: the sector window, 12, 16 and 32 bit tables, cluster chains, file transfer, format and mount geometry |
| big numbers | `Bn`, `Bytes`, `Fermat`, `Arith` | modular arithmetic on big-endian byte arrays, the inverse by Fermat's little theorem |
| cipher | `Gf`, `Aes`, `Cipher`, `Rijndael`, `AesVectors`, `Cbc`, `Octets` | table-driven AES with the equivalent inverse cipher, the examples of the standard, and chaining |
| NAND | `Ecc`, `NandCorrect`, `Nand` | the error-correcting code, correction of a page, page and cluster transfer, encrypted clusters |
| messages | `Ipc` | the two rings between the PowerPC and the ARM, as interleaved steps |
| digests | `Sha1`, `Sha1Vectors`, `Hmac`, `HmacVectors` | SHA-1 fed in pieces, HMAC, the examples of their standards |
| arguments | `WiiLaunch` | the argument block of NANDBOOTINFO |

How to read the allocator. Memory is a map from word addresses to words. `C` is the ghost map from chunk addresses to
size, kind (live, binned, victim, top, or held by the operation that is under way) and previous chunk; `B` is the ghost
picture of the bins. `Valid()` says that the chunks tile the segment, that every head and foot in memory is the tag of
its chunk, that no two free chunks are neighbours, that each binned chunk is in the one bin for its size, that the tree
bins are tries on the size bits, and that a bit of a bin map is set exactly when its bin is not empty.

How to read the file system. `Logical()` is the disk as it will be when the window has been written back, `Fat()` the
table in it as a plain sequence. `Forest` says that the table is a set of disjoint chains without cycles.

## Model

| member | source | states |
|---|---|---|
| Client.Run | wiinandfuse/geckonand/malloc.c:4047-4277 | after any sequence of malloc, memalign, realloc, free and word writes the heap is valid, its live chunks are exactly the caller's blocks, and each block, 8-aligned and apart from all others, holds the bytes written to it last: the heap refines a store of independent blocks; and if the memory left is enough for the sum of the padded requests, no request fails |
| Malloc.Heap.DlMalloc | wiinandfuse/geckonand/malloc.c:4047-4177 | keeps the heap valid; a result is one new 8-aligned live chunk of at least the padded size and less than 16 bytes above it, and no other live byte changes; it is chosen by the fit rule (a best fit of the bins, for a small request only without a remainder or if the victim is too small, for a large one only if it fits better than the victim; then the victim; top last), and the rest of a small request's chunk or of the victim is the victim then; 0 only if the request is too large, or no bin, victim or top has room and the memory asked for is refused; the segment grows by no more than the padded request |
| Malloc.Heap.DlFree | wiinandfuse/geckonand/malloc.c:4179-4277 | keeps the heap valid, so the chunk is merged with its free neighbours; exactly the one block stops being live and every other live block keeps its place and bytes; a null pointer changes nothing |
| Malloc.Heap.DlRealloc | wiinandfuse/geckonand/malloc.c:3758-3825 | on success the block is at its old place or at a new one, large enough, with its first min(old, new) bytes, and no other block changes; 0 only if the request is too large, or the block is too small, top behind it cannot make up for it and malloc has no room; no live block changes then |
| Malloc.Heap.DlMemalign | wiinandfuse/geckonand/malloc.c:3829-3912 | for every alignment for which rounding ends (see Aligning.RoundingLoop) the result is one new live chunk, of at least the padded size and at most 16 bytes above it, at a multiple of a power of two that is at least the alignment (of the alignment itself when it is a power of two); 0 only if the enlarged request is too large or malloc has no room for it |
| Aligning.RoundingLoop | wiinandfuse/geckonand/malloc.c:3834-3838 | with a loop variable of 32 bits, rounding the alignment up to a power of two ends if and only if the alignment is at most 2^31 |
| Aligning.RoundingHangs | wiinandfuse/geckonand/malloc.c:3834-3838 | it ends for 2^31 and does not for 2^31 + 1 |
| Malloc.Heap.PayloadsApart | wiinandfuse/geckonand/malloc.c:2577-2622 | in a valid heap the usable bytes of two live blocks, each including the foot word of the chunk behind it, never overlap and lie in the memory obtained so far |
| Malloc.Heap.Store | wiinandfuse/geckonand/malloc.c:2543-2622 | whatever word a caller writes into a live block, foot word included, the heap stays sound and other blocks keep their bytes |
| Malloc.Heap.TmallocLarge | wiinandfuse/geckonand/malloc.c:3645-3715 | the chunk taken is a best fit over all binned chunks and fits better than the victim; 0 with nothing changed exactly when the victim fits at least as well or nothing fits |
| Malloc.Heap.FindFit | wiinandfuse/geckonand/malloc.c:3645-3699 | the descent with the deepest untaken right subtree, the walk to the left and the search in the next marked bin find the smallest tree chunk that is large enough, over all trees, or none if there is none |
| Malloc.Heap.TmallocSmall | wiinandfuse/geckonand/malloc.c:3718-3754 | the chunk taken is the smallest of all tree chunks; what is left of it becomes the victim if it can be a chunk, and otherwise the victim stays |
| Malloc.Heap.InsertLarge | wiinandfuse/geckonand/malloc.c:2962-3011 | for every heap and size the insertion ends and keeps trie, rings, parent links, bin maps and tags; the one chunk becomes binned and nothing else changes kind |
| Malloc.Heap.UnlinkLarge | wiinandfuse/geckonand/malloc.c:3030-3099 | removing a tree chunk, from a ring, as a leaf or by moving up the deepest descendant on the right, keeps trie, rings, parent links, bin maps and tags; only that chunk leaves its bin |
| Malloc.Heap.InsertSmall | wiinandfuse/geckonand/malloc.c:2891-2907 | the chunk joins the ring of its size, whose bit is set; every other chunk and bin is as before |
| Malloc.Heap.UnlinkSmall | wiinandfuse/geckonand/malloc.c:2910-2927 | the chunk leaves its ring, and the bit is cleared exactly when the ring is then empty |
| Malloc.Heap.UnlinkFirstSmall | wiinandfuse/geckonand/malloc.c:2930-2944 | the first chunk of a marked bin has the size of the bin and leaves it, with the same care for the bit |
| Malloc.Heap.ReplaceDv | wiinandfuse/geckonand/malloc.c:2948-2957 | the old victim goes to its small bin, the given chunk becomes the victim, and no live block changes |
| Malloc.Heap.SysAlloc | wiinandfuse/geckonand/malloc.c:3348-3535 | the first segment and every later extension of top keep the heap valid; the result is cut from the old top, or from the start of the segment; 0 only if the memory asked for is refused |
| Malloc.Heap.Initialize | wiinandfuse/geckonand/malloc.c:3206-3228 | the first segment becomes one top chunk behind empty bins: a valid heap with no live block |
| Sizes.TreeIndexRange | wiinandfuse/geckonand/malloc.c:2241-2272 | for every size of 256 or more the index is below 32, the size lies between the minimum of its bin and that of the next, and its leading bits are those the bin's root stands for |
| BinMaps.BitIndexOf | wiinandfuse/geckonand/malloc.c:2278-2325 | compute_bit2idx undoes idx2bit for every bin |
| FatTable.PutGet | wiinandfuse/geckonand/ff.c:289-382 | an entry that was put is what is read, for 12, 16 and 32 bits, also across a sector boundary |
| FatTable.PutOther | wiinandfuse/geckonand/ff.c:331-382 | a put leaves every other entry alone, the one that shares a byte with it included |
| FatTable.PutTable | wiinandfuse/geckonand/ff.c:331-382 | on the table as a sequence, a put is the update of one element |
| FatFs.Volume.WriteBack | wiinandfuse/geckonand/ff.c:216-232 | the dirty window reaches the disk without changing the logical disk, and a table sector reaches every copy of the table |
| FatFs.Volume.MoveWindow | wiinandfuse/geckonand/ff.c:209-241 | the window moves to the sector and the logical disk stays; sector 0 only writes back; all copies of a flushed table sector are equal |
| FatFs.Volume.GetCluster | wiinandfuse/geckonand/ff.c:289-321 | returns element clst of the table, 1 out of range, and leaves the logical disk alone, for all three widths |
| FatFs.Volume.PutCluster | wiinandfuse/geckonand/ff.c:331-382 | the table is the old one with one element updated, everything outside the table is as before, and nothing happens out of range |
| FatFs.Volume.RemoveChain | wiinandfuse/geckonand/ff.c:393-423 | for every table, cyclic ones included, it ends and exactly the clusters on the trail are free; an error exactly for a start out of range or a trail that ends at an entry 1; a known free count stays right; a forest stays a forest |
| FatChains.TrailLinks | wiinandfuse/geckonand/ff.c:393-423 | on an arbitrary table the trail follows the links from the start until they leave the table, reach a free or bad entry, or come back to a cluster already freed |
| FatChains.TrailOfChain | wiinandfuse/geckonand/ff.c:393-423 | on a chain the trail is the chain: exactly its clusters are freed |
| FatFs.Volume.FindFree | wiinandfuse/geckonand/ff.c:453-465 | the circular search ends; 0 only if no entry of the table is 0, 1 only after an entry 1, otherwise the next free cluster behind the start in circular order |
| FatFs.Volume.CreateChain | wiinandfuse/geckonand/ff.c:434-482 | returns the existing successor, or appends one cluster that was free, or reports full with nothing changed; a known free count stays right; a forest stays a forest |
| FatChains.CreatedInForest | wiinandfuse/geckonand/ff.c:434-482 | in a forest creation never meets an internal error, and at the end of a chain it reports full if and only if no cluster is free |
| FatChains.AppendChain | wiinandfuse/geckonand/ff.c:467-475 | the chain grows by the new cluster at its end, which was not in it |
| FatChains.OtherChain | wiinandfuse/geckonand/ff.c:467-475 | every chain without the extended cluster stays as it is |
| FatChains.ChainsPartition | wiinandfuse/geckonand/ff.c:393-482 | in a forest every allocated cluster is in exactly one whole chain |
| FatChains.RemoveKeepsForest | wiinandfuse/geckonand/ff.c:393-423 | freeing a whole chain leaves a set of disjoint chains |
| FatChains.CutKeepsForest | wiinandfuse/geckonand/ff.c:2160-2169 | ending a chain at a cluster makes its successor the head of a chain and changes no count |
| FatFs.Volume.Sync | wiinandfuse/geckonand/ff.c:251-278 | the disk becomes the logical disk, table and copies included; a 32-bit volume with news has its count and last cluster in the information sector |
| FatFs.Volume.InfoRead | wiinandfuse/geckonand/ff.c:258-268 | the count and the last cluster stored there are those that mounting loads, under the signatures it looks for |
| FatData.ClustersInRow | wiinandfuse/geckonand/ff.c:490-501 | cluster 2 starts at the data area, each next one csize sectors further, and what is no cluster has no sector |
| FatFile.File.Write | wiinandfuse/geckonand/ff.c:1746-1841 | a file written from its start without seeking holds what it held and the bytes counted in bw, each at its place: byte q at byte q mod 512 of the sector of the chain's cluster that the layout gives; fewer than asked only if the disk is full or the size would pass 4 GiB; only its own and free clusters are touched |
| FatFile.File.SyncFile | wiinandfuse/geckonand/ff.c:1850-1887 | for a file that has been written, buffer and window reach the disk, which then has every byte at its place, and the directory entry holds the size and the start cluster; for one that has not, nothing changes |
| FatFile.File.Read | wiinandfuse/geckonand/ff.c:1659-1736 | delivers the next min(asked, left) bytes of the file, which are at their places in the sectors of its chain, across partial sectors, whole sectors and cluster boundaries, and leaves the rest of the buffer and the table alone |
| FatFile.EntryRead | wiinandfuse/geckonand/ff.c:1870-1880 | the size and start cluster that f_sync stores in an entry are those that f_open loads |
| FatFile.EntryFields | wiinandfuse/geckonand/ff.c:1870-1880 | which bytes of an entry get the archive bit, the time, the two halves of the start cluster and the size, least significant byte first; every other bit of the sector stays |
| FatFile.File.Truncate | wiinandfuse/geckonand/ff.c:2139-2174 | on every table: which clusters are freed, and an internal error exactly for a bad start, a bad current entry or a trail that ends at an entry 1; in a set of disjoint chains there is no error, the file ends at the file pointer, its chain is cut behind the current cluster or gone, the clusters cut off are free, all other entries are as before, and the table stays a set of disjoint chains |
| FatRoundTrip.WriteThenRead | wiinandfuse/geckonand/ff.c:1659-1887 | any sequence of writes to a new file, then a sync, then any sequence of reads on a fresh file object: the bytes read are the leading bytes of the concatenation of those counted as written; a piece is counted short only if the table is full, or as 0 if the file would reach 4 GiB with it |
| FatGeometry.Mkfs | wiinandfuse/geckonand/ff.c:2589-2786 | for every disk size and every valid cluster size the layout written is recovered by mounting: same table width, same cluster count, the cluster size in use, one table behind 1 or 2 or 32 or 33 reserved sectors, every entry inside it, the root directory behind it or in cluster 2, the information sector right behind the boot record, areas disjoint, last cluster inside the partition; it gives up only for an unknown partition rule, on a disk that is too small, or where alignment pushes the count for the cluster size in use over a boundary between widths |
| FatGeometry.MountMade | wiinandfuse/geckonand/ff.c:1364-1482 | mounting computes width, cluster count and the places of table, root directory, information sector and data from the record alone, relative to the start of the partition |
| FatGeometry.MountAreas | wiinandfuse/geckonand/ff.c:1430-1465 | on any record: reserved sectors, copies of the table, root directory and clusters lie one behind the other, the clusters are as many as the sectors hold, the width goes by 4085 and 65525 clusters, and the information sector is found relative to the boot record |
| FatGeometry.TableRoom | wiinandfuse/geckonand/ff.c:2650-2660 | a table of the number of sectors computed for a guess of the cluster count holds the entry of every cluster up to that guess |
| FatGeometry.Tight12 | wiinandfuse/geckonand/ff.c:2650 | for 12 bits the bytes computed are those of the last entry and no more |
| FatGeometry.LoopEnds | wiinandfuse/geckonand/ff.c:2631 | the loop over the 16-bit allocation size ends if and only if the size is one of 512 to 32768: for others it shifts to 0 and never ends |
| FatGeometry.AutoTypes | wiinandfuse/geckonand/ff.c:2595-2629 | with the cluster size left to f_mkfs there are 12-bit tables below 128000 sectors, 16-bit ones below 4193600 and 32-bit ones from there on |
| Bn.Add | wiinandfuse/source/bn.c:63-81 | for operands below N, d becomes (a + b) mod N over n digits, with d allowed to be a, b or both, through the carry-out branch too |
| Bn.Mul | wiinandfuse/source/bn.c:83-96 | d becomes a * b mod N for b below N, by doubling and adding |
| Bn.Exp | wiinandfuse/source/bn.c:98-114 | d becomes a^e mod N for N above 1 and a below N, for every exponent |
| Bn.Inv | wiinandfuse/source/bn.c:117-126 | d becomes a^(N-2) mod N, and for every prime N and 0 < a < N that is the inverse: a * d mod N is 1 |
| Bn.Compare | wiinandfuse/source/bn.c:35-47 | the sign of the difference of the two numbers |
| Bn.SubModulus | wiinandfuse/source/bn.c:49-61 | a - N in place, wrapping modulo 256^n |
| Bytes.ValSnoc | wiinandfuse/source/bn.c:35-61 | the number a byte array stands for has its least significant byte last |
| Cipher.DecryptEncrypt | wiinandfuse/source/rijndael.c:239-330 | for every state, width and number of rounds, the inverse cipher under the transformed and reversed key schedule undoes the cipher (section 5.3.5 of FIPS 197) |
| Rijndael.Context.GenTables | wiinandfuse/source/rijndael.c:120-165 | the tables are the powers and logarithms of GF(2^8), the substitution and its inverse, the combined round tables and the round constants |
| Rijndael.TableMulCorrect | wiinandfuse/source/rijndael.c:67-71 | multiplication by logarithms is multiplication in GF(2^8) |
| Rijndael.ByteSubCorrect | wiinandfuse/source/rijndael.c:109-118 | the substitution computed from the tables is the affine map of the inverse in GF(2^8) |
| Aes.SBoxInverse | wiinandfuse/source/rijndael.c:109-139 | the two substitutions undo each other |
| Aes.InvMixMix | wiinandfuse/source/rijndael.c:92-107 | the inverse column mix undoes the column mix on every word |
| Rijndael.Context.GKey | wiinandfuse/source/rijndael.c:167-232 | for block and key widths of 4, 6 or 8 words the schedule is the key expansion, word by word, and the decryption schedule is the equivalent one |
| AesVectors.RoundConstants | wiinandfuse/source/rijndael.c:146-150 | the first ten round constants are 1, 2, 4, 8, 16, 32, 64, 128, 0x1b and 0x36 |
| AesVectors.Row0 | wiinandfuse/source/rijndael.c:140-144 | with the fifteen lemmas behind it: the substitution is the table of figure 7 of FIPS 197 |
| AesVectors.ExpandedKey | wiinandfuse/source/rijndael.c:167-211 | the key of appendix A.1 of FIPS 197 is expanded to the words given there |
| AesVectors.Key192 | wiinandfuse/source/rijndael.c:167-211 | the first new words for the key of 24 bytes of appendix A.2 |
| AesVectors.Key256 | wiinandfuse/source/rijndael.c:167-211 | those for the key of 32 bytes of appendix A.3, with the substitution in the middle of a group |
| Rijndael.Context.Encrypt | wiinandfuse/source/rijndael.c:239-284 | the table rounds with swapped buffers compute the cipher on the block in place |
| AesVectors.Encrypted | wiinandfuse/source/rijndael.c:239-284 | the block of appendix B of FIPS 197 is encrypted to 3925841d02dc09fbdc118597196a0b32 under that schedule |
| Rijndael.Context.Decrypt | wiinandfuse/source/rijndael.c:286-330 | the same for the inverse cipher |
| Cbc.AesEncrypt | wiinandfuse/source/rijndael.c:368-394 | the output is the chained encryption of the input, which it may overwrite; a last part of a block is padded with zeros |
| Cbc.EncryptChainAt | wiinandfuse/source/rijndael.c:368-394 | block j of the chained encryption is the cipher on block j of the data combined with ciphertext block j - 1, or with the first chaining value |
| Cbc.AesDecrypt | wiinandfuse/source/rijndael.c:338-365 | in a buffer of its own the output is the chained decryption of the input; over the input it is the chain in which each block is combined with the plaintext block before it; of a last part of a block only that part is written |
| Cbc.InPlaceAgrees | wiinandfuse/source/rijndael.c:338-365 | decryption over the input is the chained decryption if and only if the plaintext equals the ciphertext on all but its last 16 bytes, and always for at most 16 bytes |
| Cbc.InPlaceFails | wiinandfuse/source/rijndael.c:338-365 | for every key there are 32 bytes and a first chaining value for which it is not |
| Cbc.DecryptEncryptChain | wiinandfuse/source/rijndael.c:338-394 | over any number of whole blocks chained decryption undoes chained encryption |
| Cbc.EncryptThenDecrypt | wiinandfuse/source/rijndael.c:332-394 | setting a key, encrypting and decrypting from the same first chaining value gives the data back, whatever the key |
| Ecc.Calc | wiinandfuse/source/ecc.c:19-56 | the four bytes stored are the exclusive or of the positions of the set bits of the sector and of their complements |
| Ecc.ExampleCode | wiinandfuse/source/ecc.c:19-56 | the four bytes for a sector with one bit set: the complement of the position first, the low byte first |
| Ecc.Check | wiinandfuse/source/ecc.c:66-85 | -2 exactly for a blank code area, else 0 exactly if the stored codes are those of the data, else -1 |
| Ecc.StoredPagePasses | wiinandfuse/source/ecc.c:58-85 | a page stored with its own codes is never mistaken for a blank one and passes |
| NandCorrect.Correct | wiinandfuse/source/main.c:134-175 | each sector becomes what its stored and computed codes call for, and the result is the worst verdict |
| NandCorrect.OneDataBit | wiinandfuse/source/main.c:134-175 | any one inverted data bit of a sector is restored |
| NandCorrect.TwoDataBits | wiinandfuse/source/main.c:134-175 | any two inverted data bits are reported and the data is left alone |
| NandCorrect.OneCodeBit | wiinandfuse/source/main.c:134-175 | any one inverted bit of the stored code leaves the data alone |
| NandCorrect.TwoCodeBits | wiinandfuse/source/main.c:134-175 | any two inverted bits of the stored code are reported and the data is left alone |
| NandCorrect.OneDataOneCodeBit | wiinandfuse/source/main.c:134-175 | one inverted data bit and one inverted code bit: repaired if the code bit is one of the eight unused ones, reported with the data left alone otherwise |
| NandCorrect.StoreDamageCorrect | wiinandfuse/source/main.c:134-175 | codes stored for a page, damage of up to two bits in each sector, codes computed anew, correction: sectors with one error come back, those with two stay, and the result is uncorrectable if and only if some sector has two, and zero if and only if nothing was damaged |
| Nand.Image.WriteSectors | wiinandfuse/source/main.c:261-290 | the file has the pages at their place, each followed by its spare area with the codes put in or by zeros, and every other byte is as before, for images with and without spare areas |
| Nand.BytePlaces | wiinandfuse/source/main.c:261-290 | page s is at 2112 * s or 2048 * s of the file, its spare area at byte 2048 of it, the codes at byte 48 of that |
| Nand.Image.ReadSectors | wiinandfuse/source/main.c:177-259 | pages and spare areas are those of the file, bytes behind its end stay as they were in the buffers, and the result is the check of the last page only |
| Nand.ResultCoversAll | wiinandfuse/source/main.c:177-259 | a result 0 for n pages means that all n pass the check, whatever the file holds, if and only if n is 1 |
| Nand.EarlyPageFails | wiinandfuse/source/main.c:177-259 | for every number of pages above 1 there is an image whose first page fails the check while the result is 0 |
| Nand.Image.WriteCluster | wiinandfuse/source/main.c:304-315 | eight pages are written with the authentication code in the spare areas of the last two |
| Nand.Image.ReadCluster | wiinandfuse/source/main.c:292-302 | the cluster's pages, the spare areas of its last two, and the check of the last; where the file ends early, the spare bytes it lacks are what the stack held, and the last two areas copied out and the check are those of the areas so filled |
| Nand.Image.WriteThenRead | wiinandfuse/source/main.c:292-315 | a cluster written is the cluster read, whatever the image held; all eight pages pass the check, the authentication code comes back unclobbered at bytes 1 to 20 and in its two copies, and bytes outside the cluster stay |
| Nand.Image.WriteThenReadEncrypted | wiinandfuse/source/main.c:317-334 | the same through encryption and decryption, for every key |
| Ipc.StepKeeps | wiinandfuse/geckonand/ipc.c:121-196 | every atomic step of writer and reader keeps the ring invariant: what is received is a prefix of what was posted, and every outstanding slot is intact |
| Ipc.QueuesDeliver | wiinandfuse/geckonand/ipc.c:121-196 | in every interleaving of two processors, each in one call at a time, each queue delivers what was posted, in order, once and unmodified, with at most size - 1 requests outstanding |
| Ipc.FlushReturns | wiinandfuse/geckonand/ipc.c:166-181 | when ipc_flush returns, every request posted before has been received |
| Ipc.FullMeansBusy | wiinandfuse/geckonand/ipc.c:131-139 | on one ring: a writer that waits on a full ring waits for a reader that has a step to take, once its processor is receiving |
| Ipc.StuckExactly | wiinandfuse/geckonand/ipc.c:121-196 | in every run nobody can move, with both processors in a call, if and only if each waits for the other to take something out (a post on a full ring, or a flush of one that is not empty), or both wait to receive and both rings are empty |
| Ipc.BothSpin | wiinandfuse/geckonand/ipc.c:131-139 | from any two empty rings a run leads to both processors spinning for ever in ipc_vpost on full rings |
| Ipc.EmptyMeansDone | wiinandfuse/geckonand/ipc.c:187-189 | a reader that waits has received all that was posted |
| Ipc.NextIsCyclic | wiinandfuse/geckonand/ipc.c:131-148 | masking with size - 1 steps through the ring cyclically if and only if the size is a power of two |
| Ipc.ReceiveTagged | wiinandfuse/geckonand/ipc.c:205-214 | returns the first message from a given one on with the code and the tag, or is still waiting if none of those received has them |
| Ipc.ExchangeGetsItsReply | wiinandfuse/geckonand/ipc.c:216-233 | in every run: if the other side answers each message to a request it has received, with its code and tag, and no message left over answers an exchange 2^32 or more back, what ipc_exchange returns is the first answer to its own request, as it was posted |
| Sha1.Context.ProcessBlock | wiinandfuse/source/sha1.c:216-310 | the digest after a block is the compression of section 7 of FIPS 180-1 |
| Sha1Vectors.Abc | wiinandfuse/source/sha1.c:216-310 | the digest of abc is that of appendix A of FIPS 180-1 |
| Sha1.Context.Input | wiinandfuse/source/sha1.c:152-194 | the context has absorbed the message and the new bytes, or is marked corrupted exactly when the length passes 2^64 bits |
| Sha1.Context.PadMessage | wiinandfuse/source/sha1.c:335-380 | the digest is that of the padded message, in one block or two (section 4 of FIPS 180-1) |
| Sha1Vectors.Long | wiinandfuse/source/sha1.c:335-380 | the digest of the 56 bytes of appendix B, whose padding takes a second block, is the one given there |
| Sha1.HashPieces | wiinandfuse/source/sha1.c:80-194 | however a message is cut into pieces, the digest is that of the whole |
| Hmac.HmacContext.Final | wiinandfuse/source/fs_hmac.c:30-54 | turning the inner pad into the outer one in place and hashing again gives the code of the text absorbed so far |
| Hmac.Generic | wiinandfuse/source/fs_hmac.c:73-84 | equals HMAC-SHA1 of section 2 of RFC 2104 under the 20-byte key, of the extra bytes followed by the data |
| Hmac.Authenticate | wiinandfuse/source/fs_hmac.c:9-54 | for a key of any length and any pieces of text, init, update and final give the code under the key cut to 64 bytes; for every key of at most 64 bytes that is HMAC-SHA1 of section 2 of RFC 2104 |
| HmacVectors.Jefe | wiinandfuse/source/fs_hmac.c:9-54 | the code of test case 2 of RFC 2202 is effcdf6ae5eb2fa2d27416d5f184df9c259a7c79 |
| Hmac.BlocksAgree | wiinandfuse/source/fs_hmac.c:9-23 | the key block is that of RFC 2104 if and only if the key has at most 64 bytes, or begins with its own digest followed by zeros up to byte 63 |
| Hmac.LongKeyDiffers | wiinandfuse/source/fs_hmac.c:9-23 | a key of 65 bytes whose block is not that of RFC 2104 |
| WiiLaunch.BootInfo.SetArgs | libwc24/nandinftool/source/wiilaunch.c:204-239 | too many bytes or an uninitialized block change nothing; otherwise count, offsets, end mark and strings are all in the block |
| WiiLaunch.BootInfo.UpdateArgv | libwc24/nandinftool/source/wiilaunch.c:161-194 | as many strings as counted, each the text at its offset up to its zero or 255 characters |
| WiiLaunch.PartsApart | libwc24/nandinftool/source/wiilaunch.c:204-239 | for every list that fits, the table ends before the strings begin, and no two strings overlap |
| WiiLaunch.StoredBytes | libwc24/nandinftool/source/wiilaunch.c:204-239 | the bytes of the block for one short argument |
| WiiLaunch.SetThenRead | libwc24/nandinftool/source/wiilaunch.c:77-239 | the reader recovers exactly the strings that were set, those longer than 255 characters cut there, and the block passes the checksum |
| WiiLaunch.ChecksumValid | libwc24/nandinftool/source/wiilaunch.c:77-99 | storing the checksum neither changes it nor disturbs the arguments |
| WiiLaunch.SumMoves | libwc24/nandinftool/source/wiilaunch.c:77-87 | changing a summed word by some amount changes the checksum by that amount, modulo 2^32 |
| WiiLaunch.ChangeShows | libwc24/nandinftool/source/wiilaunch.c:77-99 | a valid block is invalid after a change of any one word behind the checksum |

Where code and expectation differ, the code is what is modelled, and lemmas give an input at which they differ and the
exact condition under which they do not:

- `nand_read_sector` reports the check of the last page only (`Nand.ResultCoversAll`, `Nand.EarlyPageFails`).
- `aes_decrypt` takes the previous ciphertext block from the input buffer, so that over its own input it goes wrong
  from the second block on (`Cbc.InPlaceAgrees`, `Cbc.InPlaceFails`); `aes_encrypt` may work in place.
- `hmac_init` cuts a key of more than 64 bytes where RFC 2104 hashes it (`Hmac.BlocksAgree`, `Hmac.LongKeyDiffers`);
  the callers use 20 bytes.
- `memalign` never returns for an alignment above 2^31 (`Aligning.RoundingLoop`, `Aligning.RoundingHangs`).
- `f_mkfs` never ends for an allocation size that is not a power of two from 512 to 32768 (`FatGeometry.LoopEnds`).
- Two processors that both post without receiving end up waiting for each other (`Ipc.StuckExactly`, `Ipc.BothSpin`).

## Left out

- Client.Run: the writes of a caller are aligned words inside its blocks, because the memory of the model is made of words.
- Malloc.Heap.DlMemalign: alignments above 2^31 have no result to speak of, because the loop of the code never ends for them (Aligning.RoundingLoop).
- Malloc.Heap.SysAlloc: MORECORE is modelled as the next bytes or MFAIL on an 8-aligned start; the sbrk shim's result 0 on exhaustion, memory mapping, foreign and noncontiguous segments, an unaligned base, footers and locks are not.
- Malloc.Heap.DlFree: the aborts of RTCHECK are proved unreachable instead of modelled; trimming gives nothing back, as the shim refuses a negative size.
- calloc, mspaces, independent allocation and statistics of malloc.c would only add easy members.
- Ghost maps stand for the links of a small bin whose ring is empty: the code leaves stale words there and never reads them.
- FatFs.Volume.MoveWindow: disk calls succeed; their error results are not modelled.
- FatFile.File.Write: no claim after f_lseek on the same open file, because direct transfers bypass the file's sector buffer.
- FatRoundTrip.WriteThenRead: the directory entry of the new file is in the window when it is opened; directories, paths and long names are not part of this model.
- FatGeometry.Mkfs: sectors and erase blocks of 512 bytes; the partition table and the writing of the boot record's other fields are not modelled.
- FatFs identifiers, re-entrancy, f_forward, string functions and directory operations are not part of this model.
- NandCorrect.Correct: words of the spare area are loaded big-endian, as on the processor the function comes from; the host leaves the call out.
- Nand.Image.ReadCluster: what the uninitialized buffer on the stack holds is left open; for an image without spare areas that is all that is copied out.
- Nand.Image.WriteSectors: write errors and the transport over a Gecko are not modelled.
- SFFS mutation, FUSE callbacks and key loading in main.c have no clean invariant and are not part of this model.
- Ipc.QueuesDeliver: the ARM side is not in the repository; it is an environment that obeys the mirrored rules. The spin loops are steps that are not enabled; requests carry at most the six arguments of a slot; printouts and delays are left out.
- Hmac.Generic: the global 20-byte key is a parameter; printing and negative key sizes are left out.
- Hmac.BlocksAgree: speaks of the key blocks; that codes under different blocks differ too would need that SHA-1 has no collisions, which is not so for all texts.
- Ipc.ExchangeGetsItsReply: that the other side answers every request is an assumption about code that is not in the repository; without an answer ipc_exchange waits for ever.
- WiiLaunch.SetThenRead: at most 256 arguments, the slots of the reader; reading and writing the file are not modelled.
- wiinandfuse/source/md5.c repeats the streaming property of SHA-1, and wc24decrypt repeats the cipher with a wider word.
