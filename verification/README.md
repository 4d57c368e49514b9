# A verified model of the crawler's storage and protocol code

The crawler keeps every page, URL and cookie it fetches in a small on-disk hash database written in C: an index
file of printed records on hash chains and a free list, and a data file of extents. Around it sit components with
hard promises of their own. This project models them in Dafny and proves what they promise, for every input, every
state an operation can meet, and every run.

## What is modelled

**The hash database** (`src/tools/db.cpp`, the variant with binary data), in layers:

- `CText`, `IndexRecord`, `IndexFile`: the index file as text. Records are printed and parsed; the round trip holds
  for every record in range, also with `:` or blanks in the key, and rewriting one record or one pointer cell
  leaves every other one readable.
- `HashDbSpec`: the database as a value, and each operation as a step on it: searching, first fit on the free list,
  deleting, and the five ways a store can go (append, reuse a free record, overwrite in place, delete then append,
  delete then reuse).
- `HashDbInv`, `HashDbOps`, `HashDbTheorems`: every step keeps the invariant (chains duplicate-free and disjoint,
  every live record on exactly the chain of its key, unique keys, extents of the linked records tiling the data
  file); what each step does to the finite map the database stands for; and the promise of `db_store` for its codes, `-1`, `0`, `1`, `2`, `3`, with the exact condition on the two files for `2`., `-1`, `0`, `1`, `2`, `3`.
- `HashDbScan`, `HashDbRuns`: record boundaries never move, a scan meets every key once, a saved position leads to
  the record the chain walk finds; and any run of stores, deletes, fetches and scans is a run of the finite map,
  each reply exactly as the map and the room left say; within the limits of the two files no store is refused for
  want of space.
- `HashDbLinks`, `HashDb`: the chains as pointer cells, and the code itself as a class with the pointer-chasing
  loops, the positioned writes and the doubly linked free list in memory (`FSDBD`), which always mirrors the free
  list on disk. Every operation takes exactly its step. `HashDbReplay`: any sequence of calls on one open database
  behaves as the finite map does.
- `HashDbOverflow`: one promise does not hold. `_db_writeidx` silently writes a record at the end of the file when
  its text is longer than its slot, and the in-place branch of `db_store` does not relink it. A run of seven
  operations on an empty database of any number of chains reaches this; the store returns 0 and later reads are cut
  short. A store is one map update if and only if the new text fits the slot, and no run can leave the map when all
  keys have lengths with one number of digits.

**Other components**, each in a module of its own:

- `HashTable` (`src/tools/hash_table.c`): a chained table of heap nodes relinked in place by a rehash.
- `Md5` (`src/tools/mymd5.c`): streaming, however the message is cut up, is the padded message folded block by
  block (RFC 1321, sections 3.1 to 3.4). The block transformation is a parameter.
- `XxTea` (`src/tools/OtherFunc.cpp`): the in-place mixer is a bijection; the whole encoding loses nothing.
- `ContentRecord` (`src/module/LocalDbManager.cpp`): the text header reads back, and its entries cut the content
  into exactly the saved pages.
- `UrlPath` (`src/tools/Url.cpp`): the rewriting loops of `normalizePath` against a stack evaluation (RFC 3986,
  section 5.2.4), with the exact condition for a last segment `.` or `..`. `UrlParse`: how `parse` finds the path,
  which always begins with a slash, so that normalising it always ends, and which is the one written in the URL if
  and only if its colons are in order.
- `ChunkedFile` (`src/tools/FSBigFile.cpp`): one logical file in several chunks.
- `HashRing`, `MemCacheGet` (`src/tools/MemCacheClient.cpp`): when adding a server moves keys, and the reply parser
  over a socket that delivers bytes in pieces.
- `ChunkedBody` (`src/tools/Http.cpp`, `src/tools/MyConnection.cpp`): chunked bodies (RFC 7230, section 4.1) read
  through a buffered connection into an output with a limit.
- `HostSchedule` (`src/module/UrlAnalyseManager.cpp`): over whole runs, hosts are given out no faster than their
  interval, none that is due is passed over, addresses come in order, and a host is dropped exactly after 101 turns
  in a row without a URL.
- `MyLock` (`src/tools/mylock.cpp`): mutual exclusion and freedom from deadlock in every interleaving, and what a
  thread comes out of `get` and `put` with.
- `SpiderId` (`src/module/CheckpointManager.cpp`): exactly when ids increase and stay unique.

Where the code does not do what its comments or its callers expect, the model follows the code: the overflow above;
a path that ends in `.` or `..` is not resolved once anything in it was rewritten, because the test for "no query"
compares an unsigned number with zero; the id counter reaches 4096 though its field has twelve bits; two
servers that share a hash can exchange keys when a third is added; and the chunked decoder misreads a chunk whose
size line has 63 characters or more, and takes a stream that ends right after a leading zero for a complete body; and
a URL with a password, no port and a colon in its path loses the path up to that colon.

`Machine` holds what several modules share. `dafny verify dfyconfig.toml` checks the whole project.

## Model

| member | source | states |
|---|---|---|
| CText.AtolOfDigits | src/tools/db.cpp:897-963 | `atol` reads back a printed number whatever blanks precede it and whatever non-digit follows |
| CText.CutLastAt | src/tools/db.cpp:919-963 | cutting at the last `:` splits exactly where a field without `:` was appended, whatever the text before it holds |
| IndexRecord.ParsePrinted | src/tools/db.cpp:1332-1401 | the padded text of any printable record parses back to the record: key (with `:` and blanks), extent, lengths, flag |
| IndexRecord.ReadBack | src/tools/db.cpp:844-969 | at any offset of any file, a record written by `_db_writeidx` is read by `_db_readidx` with the same key, pointer, offsets, lengths and flag |
| IndexRecord.FitsIdxLenMax | src/tools/db.cpp:1337-1358 | a key that fits the index buffer never prints a text longer than IDXLEN_MAX |
| IndexRecord.FormatExample | src/tools/db.cpp:1346-1359 | a record as it stands in the file, with the order, the separators and the widths of its fields |
| IndexFile.WriteCell | src/tools/db.cpp:1406-1425 | rewriting one pointer cell changes that cell only; every record and every other cell reads as before |
| IndexFile.Overwrite | src/tools/db.cpp:1352-1401 | rewriting a record in its slot changes that record and its pointer, and no other |
| IndexFile.Append | src/tools/db.cpp:1360-1401 | a record written at the end of the file becomes a new one; no old record or cell changes |
| IndexFile.TwoWrites | src/tools/db.cpp:1380-1401 | the two positioned writes together leave the file holding the new record, in place or at the end |
| IndexFile.ReadsBack | src/tools/db.cpp:844-969 | every record the file stands for is read back with its pointer and all its fields |
| IndexFile.StopsAtEnd | src/tools/db.cpp:866-880 | at a record boundary reading fails if and only if it is the end of the file, so a scan from boundary to boundary stops there and nowhere before |
| HashDbSpec.FindKey | src/tools/db.cpp:390-404 | the place found holds the key and no earlier place of the chain does |
| HashDbSpec.FirstFit | src/tools/db.cpp:440-462 | the free record found passes the size test and no earlier one on the list does |
| Machine.BucketIsMod | src/tools/db.cpp:594-610 | repeated subtraction gives the remainder the hash is reduced by |
| Machine.HashSumIs | src/tools/db.cpp:594-610 | the hash of an empty key is 0, and one more character adds it, signed and times its position, modulo 2^64 |
| HashDbInv.DeleteKeepsInv | src/tools/db.cpp:128-200 | unlinking a record, blanking its key and pushing it on the free list keeps the whole invariant |
| HashDbInv.FreedPrintable | src/tools/db.cpp:128-200 | the delete path always fits: a blanked record prints in the slot it has |
| HashDbInv.AppendKeepsInv | src/tools/db.cpp:1103-1118 | appending data, record and chain head keeps the whole invariant, with the data file within its limit |
| HashDbInv.ReuseInSlotKeepsInv | src/tools/db.cpp:1119-1133 | taking a free record for a new key, in its slot, keeps the whole invariant |
| HashDbInv.ReuseMovingKeepsInv | src/tools/db.cpp:1119-1133 | so does taking one whose text outgrows its slot: the record moves, its data extent goes along, the old slot stays cut off |
| HashDbInv.InPlaceKeepsInv | src/tools/db.cpp:1202-1210 | overwriting in place keeps the invariant of the linked records, also when the text outgrows the slot and a stray record is left behind |
| HashDbOps.FoundIffPresent | src/tools/db.cpp:348-418 | a chain walk finds a record if and only if the key is in the map |
| HashDbOps.FetchMeans | src/tools/db.cpp:269-310 | `db_fetch` gives exactly the bytes the map has for the key, or nothing when it has none |
| HashDbOps.HintFound | src/tools/db.cpp:367-380 | a position whose record holds the key leads to the record the chain walk finds |
| HashDbOps.DeleteMeans | src/tools/db.cpp:79-126 | `db_delete` returns 0 if and only if the key was there, and removes exactly that key from the map |
| HashDbOps.AppendMeans | src/tools/db.cpp:1103-1118 | the appending branch is the map update for its key and changes no other key |
| HashDbOps.ReuseInSlotMeans | src/tools/db.cpp:1119-1133 | the reusing branch is the map update for its key and changes no other key |
| HashDbOps.ReuseMovingMeans | src/tools/db.cpp:1119-1133 | so is the reusing branch when the record moves to the end of the file |
| HashDbOps.InPlaceMeans | src/tools/db.cpp:1202-1210 | overwriting in place is the map update when the text fits the slot |
| HashDbOps.InPlaceIff | src/tools/db.cpp:1202-1210 | overwriting in place is the map update if and only if the text fits the slot |
| HashDbOps.PutFull | src/tools/db.cpp:440-462 | storing an absent key returns 2 if and only if no free record has `keylen <= area < keylen + 1000` and `n <= datlen < n + 3072`, and the data file would pass 2000000000 bytes or the index file 999999999 |
| HashDbOps.FullAfterDelete | src/tools/db.cpp:1141-1200 | freeing a record too small for the data does not change whether there is room |
| HashDbTheorems.StoreMeans | src/tools/db.cpp:1047-1225 | `db_store`: which code is returned is decided exactly by length, presence, flags and room; 2 says that no free record is of the size and that the data or the index file is at its limit, and that the key has no record large enough; -1, 1 and 3 change nothing, 2 leaves the key absent, 0 is one map update if and only if no record outgrew its slot in place; the invariant is kept |
| HashDbScan.StoreGrows | src/tools/db.cpp:1047-1225 | no store moves or resizes a record that is there, and no live record is left off the chains exactly when no record outgrew its slot in place |
| HashDbScan.DeleteStepGrows | src/tools/db.cpp:79-200 | no deletion moves or resizes a record |
| HashDbScan.ScanVisits | src/tools/db.cpp:626-683 | a scan from a boundary visits the records from there on that are not free, each once, and nothing else |
| HashDbScan.ScanIsContents | src/tools/db.cpp:626-683 | a full scan meets every key of the map exactly once, with its bytes |
| HashDbScan.ScanListsMap | src/tools/db.cpp:626-683 | the list of keys and data a full scan gives is the map: every key once, with its bytes, and nothing else |
| HashDbScan.HintAgrees | src/tools/db.cpp:367-404 | for a key that is not all blanks, a saved position that holds the key is the record the chain walk finds |
| HashDbScan.DataTiled | src/tools/db.cpp:1283-1323 | every byte of the data file lies in the extent of exactly one linked record, and the file is within its limit |
| HashDbRuns.RunRefinesMap | src/tools/db.cpp:1047-1225 | every run of stores, deletes, fetches and full scans, saved positions passed or not, in which no record outgrows its slot in place is a run of the finite map and ends in the map's state; every reply is exactly the one that the map, and for a store the room at that moment, determine |
| HashDbRuns.RunGrows | src/tools/db.cpp:1352-1358 | over a whole run no record boundary moves, so a saved position stays one |
| HashDbRuns.RoomyRunIsCalm | src/tools/db.cpp:1352-1358 | with keys whose lengths have one number of digits no run ever outgrows a slot, whatever the flags and data |
| HashDbRuns.EveryRoomyRun | src/tools/db.cpp:1047-1225 | from an empty database, every run with such keys that passes only saved positions is a run of the empty map |
| HashDbRuns.RunBounded | src/tools/db.cpp:1096-1133 | over a run the data file grows by at most the bytes stored, and the index file by at most one record of the greatest length for each store |
| HashDbRuns.WithinLimits | src/tools/db.cpp:1518-1532 | after any run on an empty database no store returns 2 while the bytes stored and the index file with the key are within the limits |
| HashDbRuns.RoomForAll | src/tools/db.cpp:1047-1225 | a run on an empty database whose bytes and stores are within the limits replies exactly as a map with room for everything |
| HashDbReplay.Replay | src/tools/db.cpp:1047-1225 | any such run of calls on one open database gives the replies of the finite map and leaves its contents |
| HashDbOverflow.OverflowReached | src/tools/db.cpp:1202-1210 | with any number of chains that leaves room for the pointers, the default 1572869 included, a run of seven operations from an empty database ends with a store that returns 0 after which the map holds the first nine of the ten bytes stored |
| HashDbLinks.DeleteLinks | src/tools/db.cpp:150-190 | the three pointer writes of a deletion leave chains and free list linked as the deletion step says |
| HashDbLinks.ReuseLinks | src/tools/db.cpp:1128-1130 | bypassing a free record and linking it at its chain head leaves every list linked as the reuse step says |
| HashDbLinks.AppendLinks | src/tools/db.cpp:1113-1117 | writing the new record's pointer and then the chain head leaves every list linked as the append step says |
| HashDb.Db.ReadPtr | src/tools/db.cpp:983-997 | reads the pointer a cell stands for |
| HashDb.Db.WritePtr | src/tools/db.cpp:1406-1425 | changes exactly one pointer; fatal if and only if it does not fit the cell |
| HashDb.Db.ReadIdx | src/tools/db.cpp:844-969 | gives every field of the record at the offset and where the next record begins; negative at the end of the file |
| HashDb.PrintBuffer | src/tools/db.cpp:1337-1358 | the text is the padded print of the buffer, and grown says exactly when it is longer than the slot |
| HashDb.Db.WriteIdx | src/tools/db.cpp:1332-1401 | writes the buffer's record in its slot, or at the end when asked or when the text is longer, and changes no other record |
| HashDb.Db.CacheAdd | src/tools/db.cpp:1546-1562 | pushes one node on the doubly linked list |
| HashDb.Db.CacheDelete | src/tools/db.cpp:1563-1578 | unlinks exactly one node, at the head, inside or at the end |
| HashDb.Db.HashKey | src/tools/db.cpp:594-610 | the loop computes the hash |
| HashDb.Db.WalkChain | src/tools/db.cpp:390-414 | the loop stops at the first record of the chain with the key, or at its end, and knows the cell before it |
| HashDb.Db.Find | src/tools/db.cpp:348-418 | finds the key's record through a saved position or along the chain, if and only if there is one |
| HashDb.Db.BlankKey | src/tools/db.cpp:142-144 | the loop overwrites every character of the key with a blank |
| HashDb.Db.DoDelete | src/tools/db.cpp:128-200 | takes exactly the deletion step, in both files, the pointers and the list in memory |
| HashDb.Db.Delete | src/tools/db.cpp:79-122 | result and new state are those of the deletion step |
| HashDb.Db.ReadDat | src/tools/db.cpp:824-842 | the used bytes of the record's extent |
| HashDb.Db.Fetch | src/tools/db.cpp:269-310 | the bytes the map has for the key, and the position of its record |
| HashDb.Db.WalkFree | src/tools/db.cpp:440-464 | the walk along the free list on disk stops at the first fit |
| HashDb.Db.WalkCache | src/tools/db.cpp:486-516 | the walk along the list in memory stops at the same first fit |
| HashDb.Db.FindFree | src/tools/db.cpp:423-482 | takes the first fit off the free list on disk |
| HashDb.Db.FindFreeCache | src/tools/db.cpp:485-524 | takes the same record, leaves the same index file, and drops the record's node so that list and file still agree |
| HashDb.Db.WriteDat | src/tools/db.cpp:1283-1323 | appends or overwrites exactly the given bytes |
| HashDb.Db.AppendRecord | src/tools/db.cpp:1103-1118 | takes exactly the append step |
| HashDb.Db.ReuseRecord | src/tools/db.cpp:1119-1133 | takes exactly the reuse step; fatal if and only if the record would move past what a pointer can hold |
| HashDb.Db.OverwriteRecord | src/tools/db.cpp:1202-1210 | takes exactly the in-place step |
| HashDb.Db.Put | src/tools/db.cpp:1096-1133 | storing an absent key: first fit, append, or no space, as the step says; 2 if and only if the database is full for the key and the data |
| HashDb.Db.Store | src/tools/db.cpp:1047-1225 | result and new state of `db_store` are those of the store step, every part of the database still agrees, and the code is the one that length, presence, flags and room determine |
| HashDb.Db.NextRec | src/tools/db.cpp:626-683 | gives the next record that is not free, and goes on right after it |
| HashDb.Db.LoadAll | src/module/DBAccess.cpp:99-115 | the loop around `db_nextrec` yields the records of a full scan in file order |
| HashDb.Db.SavedPositionOk | src/tools/db.cpp:367-380 | a position reported earlier is safe for any key that is not all blanks |
| HashDb.Db.Retrieve | src/tools/db.cpp:1427-1469 | the rebuilt list in memory has the free list's records, sizes and order |
| HashDb.Db.Open | src/tools/db.cpp:782-792 | opening a well-formed pair of files rebuilds the list in memory, and all parts agree |
| HashDb.Db.TemplateText | src/tools/db.cpp:1602-1630 | the loop prints one empty pointer cell for each list |
| HashDb.Db.Create | src/tools/db.cpp:1602-1670 | a new database is empty and all its parts agree |
| HashTable.Hash | src/tools/hash_table.c:202-214 | the loop computes the bucket of a key |
| HashTable.SizeForSize | src/tools/hash_table.c:41-46 | doubling from 256 up to a bucket count stops exactly at that count |
| HashTable.Table.constructor | src/tools/hash_table.c:32-58 | a new table is empty; it has the requested count if that is 256 doubled some number of times |
| HashTable.Table.Walk | src/tools/hash_table.c:99-104 | the walk stops at the key's entry if and only if there is one, and knows the entry before it |
| HashTable.Table.Find | src/tools/hash_table.c:82-85 | finds the key's entry if and only if there is one |
| HashTable.Table.DrainChain | src/tools/hash_table.c:178-188 | relinks every entry of one chain into the new table, and leaves the chains not yet reached linked |
| HashTable.Table.Rehash | src/tools/hash_table.c:164-195 | keeps every entry object and the count, doubles the buckets, and files every entry under its hash |
| HashTable.Table.Lookup | src/tools/hash_table.c:93-133 | insert if absent: a present key is returned and nothing changes; an absent one is added, after at most one doubling, which happens exactly when there are more entries than buckets |
| HashTable.Table.FindOrAdd | src/tools/hash_table.c:87-91 | one step of the insert-if-absent map |
| HashTable.Table.Remove | src/tools/hash_table.c:136-151 | removes exactly the key, and counts down only if it was there |
| HashTable.Table.Visit | src/tools/hash_table.c:153-162 | the callback gets every entry of the table, each once |
| HashTable.RunLookup | src/tools/hash_table.c:87-151 | after any run of insertions and removals a key has the value of its first insertion since it was last removed, or none |
| HashTable.Replay | src/tools/hash_table.c:87-195 | any sequence of `hash_find_or_add` and `hash_remove` on an empty table leaves exactly the entries of that run, and reports a key found exactly when the run so far has it |
| XxTea.Sl | src/tools/OtherFunc.cpp:17-30 | packs the string into words, four bytes each, and the length last |
| XxTea.Mix | src/tools/OtherFunc.cpp:39-58 | the loops over rounds and words compute, in place, the rounds the inverse is given for |
| XxTea.RoundsBack | src/tools/OtherFunc.cpp:41-57 | for every key and every number of rounds the mixing is undone, and undoes, the inverse rounds: a bijection on two or more words |
| XxTea.MxExample | src/tools/OtherFunc.cpp:47-48 | one value of the mixing expression |
| XxTea.RoundExample | src/tools/OtherFunc.cpp:41-57 | "abcd" after one round under the key "0123456789abcdef" |
| XxTea.HexExample | src/tools/OtherFunc.cpp:60-75 | a word in hexadecimal: lowest byte first, high digit first |
| XxTea.Bh | src/tools/OtherFunc.cpp:60-75 | prints every byte of the words in hexadecimal |
| XxTea.HexOnce | src/tools/OtherFunc.cpp:60-75 | the hexadecimal text determines the words |
| XxTea.PackedOnce | src/tools/OtherFunc.cpp:17-30 | the packed words determine the string, whatever lies in memory after it |
| XxTea.En | src/tools/OtherFunc.cpp:31-59 | packs, mixes and prints |
| XxTea.EncodedOnce | src/tools/OtherFunc.cpp:31-59 | under one key, equal encodings come from equal strings |
| Md5.AnySplit | src/tools/mymd5.c:148-181 | however a message is cut into pieces, successive updates reach the context of one update with all of it, count and block buffer included |
| Md5.FillAdvances | src/tools/mymd5.c:160-161 | the place in the block advances with the bytes counted, also when the 64-bit count wraps around |
| Md5.CountCarry | src/tools/mymd5.c:163-167 | the two-word update with its carry test counts bits modulo 2^64 |
| Md5.Padding | src/tools/mymd5.c:203-204 | one to 64 bytes, the first 80 (base 16) and the others 0, that end 56 bytes into a block |
| Md5.StartBytes | src/tools/mymd5.c:138-141 | the words begin as the bytes of RFC 1321, section 3.3 |
| Md5.HexExample | src/tools/mymd5.c:396-397 | two digits a byte, lower case, high digit first |
| Md5.FeedBlocks | src/tools/mymd5.c:169-180 | feeding whole blocks byte by byte is folding the transformation over them |
| Md5.LengthIsCount | src/tools/mymd5.c:195-212 | the last two words of the final block are the bytes of the bit count, low word first |
| Md5.DigestIsReference | src/tools/mymd5.c:148-224 | whatever the block buffer held before, update and final give the digest of the padded message |
| Md5.MD5_CTX.constructor | src/tools/mymd5.c:131-142 | an empty context |
| Md5.MD5_CTX.Update | src/tools/mymd5.c:148-181 | brings count, chaining words and block buffer to those of the fed bytes |
| Md5.MD5_CTX.Final | src/tools/mymd5.c:187-224 | pads and leaves the digest |
| Md5.GetMd5 | src/tools/mymd5.c:371-400 | for any buffer size the digest of a file is the hexadecimal digest of its padded bytes; none if it does not open |
| Md5.GetMd5String | src/tools/mymd5.c:407-429 | the digest of a string is that of its padded bytes, so it agrees with that of a file of the same bytes |
| MyLock.StepKeepsInv | src/tools/mylock.cpp:19-59 | every step of every thread keeps the invariant of stripes, map lock and owners |
| MyLock.MutualExclusion | src/tools/mylock.cpp:19-59 | in every interleaving at most one thread is between the return of `get(id)` and `put(id)`, and an id is in the map exactly while a thread owns it |
| MyLock.BlockedByProgress | src/tools/mylock.cpp:22-43 | a thread that cannot go on waits while some thread inside a section can |
| MyLock.SectionsEnd | src/tools/mylock.cpp:22-59 | inside a section every call brings the thread nearer to unlocking its stripe |
| MyLock.SectionLeft | src/tools/mylock.cpp:22-59 | in any run a thread that stays inside its section makes at most four calls of its own: with the fifth at the latest it has left |
| MyLock.NoDeadlock | src/tools/mylock.cpp:19-59 | in every reachable state, if a thread is inside a call then some thread can make its next call |
| MyLock.GetTakesFree | src/tools/mylock.cpp:19-48 | in every interleaving, a thread that reads the map while nobody owns its id comes out of the section back from `get` with the id; if somebody owns it, it comes out asleep with what it held |
| MyLock.GetAlone | src/tools/mylock.cpp:19-48 | a thread that calls `get` for an id nobody owns, with its stripe and the map not locked, and then runs alone makes its six calls and holds the id |
| MyLock.PutGivesBack | src/tools/mylock.cpp:50-59 | in every interleaving, once a thread in `put` has erased its id nobody owns it, and the thread comes out back from `put` with the other ids it holds |
| SpiderId.IdValue | src/module/CheckpointManager.cpp:74-90 | the shifted and or-ed id as a number; counter 4096 spills into the lowest bit of the spider number |
| SpiderId.SameId | src/module/CheckpointManager.cpp:74-90 | exactly when two ids are equal, and exactly when one is less than the other |
| SpiderId.IdFits | src/module/CheckpointManager.cpp:74-90 | with 2^41 milliseconds and 2^11 spiders nothing is shifted out of 64 bits |
| SpiderId.IdSource.GetMaxID | src/module/CheckpointManager.cpp:46-99 | the loop over clock readings issues the id, or fails, as polling says |
| SpiderId.BoundedMeans | src/module/CheckpointManager.cpp:82-91 | no millisecond has more than 4096 ids if and only if no counter reaches 4096 |
| SpiderId.IncreasingIff | src/module/CheckpointManager.cpp:67-99 | over any run one spider's ids strictly increase if and only if its number is even or no millisecond has more than 4096 of them |
| SpiderId.Overrun | src/module/CheckpointManager.cpp:80-95 | 4097 calls while the clock shows one millisecond leave that bound, and for an odd number the last id is the first again |
| SpiderId.ShareIff | src/module/CheckpointManager.cpp:67-99 | two spiders issue a common id if and only if their numbers are 2k and 2k + 1 and the even one issues more than 4096 ids in a millisecond in which the odd one issues any |
| UrlPath.FindIsFirst | src/tools/Url.cpp:722-775 | searching for a pattern finds the first matching segment, or nothing before the query |
| UrlPath.CUrl.DropSegments | src/tools/Url.cpp:720-745 | the loop drops every empty (or every `.`) segment before the last, and pathend is lost exactly when a path without a query was rewritten |
| UrlPath.CUrl.DropDot | src/tools/Url.cpp:746-752 | drops a final dot exactly when the first `/.` ends the path and pathend is known |
| UrlPath.CUrl.PopSegments | src/tools/Url.cpp:757-773 | the loop evaluates the segments before the last on a stack |
| UrlPath.CUrl.PopLast | src/tools/Url.cpp:774-788 | resolves a final `..` exactly when the first `/..` ends the path and pathend is known |
| UrlPath.CUrl.DecodePath | src/tools/Url.cpp:794-803 | the loop decodes every `%7E` of the path and leaves the query alone |
| UrlPath.CUrl.NormalizePath | src/tools/Url.cpp:701-813 | path becomes the decoded normal form of its segments; the query is unchanged |
| UrlPath.AnyPath | src/tools/Url.cpp:701-708 | every path that begins with a slash is segments and a query |
| UrlPath.NormIsEval | src/tools/Url.cpp:701-791 | the normal form is the stack evaluation of the segments if and only if a condition on the last segment holds; it always holds when that is not `.` or `..` |
| UrlPath.EndLost | src/tools/Url.cpp:757-791 | `/a//b/..` without a query becomes `/a/b/..`, while its evaluation is `/a/` |
| UrlPath.NothingLeft | src/tools/Url.cpp:701-803 | none of `//`, `/./`, `/../` and `%7E` is left before the query |
| UrlParse.HostFollows | src/tools/Url.cpp:470-507 | past the colon of a supported scheme the text begins with `//`, so the branch for a URL without a host is never taken |
| UrlParse.PathIsAbsolute | src/tools/Url.cpp:475-634 | the path that `parse` hands over begins with a slash, whatever the text; none is handed over exactly for a text that is too long or of another scheme |
| UrlParse.Parse | src/tools/Url.cpp:433-641 | for every text `parse` ends, and the path is left alone or is the normal form of the path found in the text |
| UrlParse.PathFound | src/tools/Url.cpp:485-634 | in a URL `scheme://[user@]host[:port]/path` without blanks, `#` or line ends, the path found is the one written there if and only if not (the user part has a colon, there is no port, and the path has a colon) |
| UrlParse.ColonLost | src/tools/Url.cpp:534-581 | in that case a path `a:b/c` is found to be `/c` |
| UrlParse.ColonExample | src/tools/Url.cpp:534-581 | the path found in `http://u:p@h/a:b/c` is `/c` |
| HashRing.Stable | src/tools/MemCacheClient.cpp:642-694 | when no two old servers share a hash, adding a server leaves a key's server or makes it the new one, wraparound included |
| HashRing.StableIff | src/tools/MemCacheClient.cpp:642-694 | whatever order the sort gives equal hashes, no key moves between old servers if and only if no two old servers share a hash |
| HashRing.SameHash | src/tools/MemCacheClient.cpp:759-789 | addresses that differ as `12.0.0.1:11211` and `31.0.0.1:11211` have one hash, with any salt |
| HashRing.Twins | src/tools/MemCacheClient.cpp:641-694 | two `AddServer` calls with such addresses build a ring in which a third server can move a key from the one to the other |
| HashRing.MemCacheClient.AddServer | src/tools/MemCacheClient.cpp:641-694 | a server already there, or with a bad address, changes nothing; a new one adds its seven entries, and the ring stays sorted with seven entries for each server |
| HashRing.MemCacheClient.FindServer | src/tools/MemCacheClient.cpp:791-815 | the server of the first entry at or after the key's hash, or of the first entry |
| HashRing.AddMovesToNewOnly | src/tools/MemCacheClient.cpp:641-815 | through `AddServer` and `FindServer`, a key keeps its server or goes to the one just added |
| MemCacheGet.ServerSocket.GetByte | src/tools/MemCacheClient.cpp:154-160 | takes exactly the next byte of the stream, however it arrived; fails only at its end |
| MemCacheGet.ServerSocket.GetBytes | src/tools/MemCacheClient.cpp:421-436 | takes a non-empty prefix of the stream, no longer than asked for |
| MemCacheGet.ServerSocket.DiscardBytes | src/tools/MemCacheClient.cpp:438-458 | drops exactly the bytes asked for, across any number of receives |
| MemCacheGet.ReceiveLine | src/tools/MemCacheClient.cpp:947-958 | takes exactly the stream up to and including its first newline |
| MemCacheGet.ReceiveData | src/tools/MemCacheClient.cpp:1010-1017 | takes exactly the bytes of the value |
| MemCacheGet.HandleGetResponse | src/tools/MemCacheClient.cpp:960-1031 | however the bytes arrive, throws exactly on the responses the parser refuses, and otherwise leaves the requests and the stream as it says |
| MemCacheGet.LineParses | src/tools/MemCacheClient.cpp:976-1007 | a printed value line parses to its key, flags, size and cas |
| MemCacheGet.ReadsValue | src/tools/MemCacheClient.cpp:976-1028 | a printed value is filed under the first request for its key, or skipped, and reading goes on right after it |
| MemCacheGet.WellFormedParses | src/tools/MemCacheClient.cpp:960-1031 | a well-formed response is read to its end and not beyond, and does to the requests what it says |
| MemCacheGet.AnsweredExactly | src/tools/MemCacheClient.cpp:989-1025 | with distinct keys every answered request has exactly its value's flags and bytes, and every other one is untouched |
| ContentRecord.WriteHead | src/module/LocalDbManager.cpp:629-650 | the loop prints the head |
| ContentRecord.ReadHeadText | src/module/LocalDbManager.cpp:652-677 | the loop reads head and page entries, skipping each by the length of its text printed anew |
| ContentRecord.HeadReads | src/module/LocalDbManager.cpp:629-677 | `readHead` of what `writeHead` printed is the head and its length, whatever follows |
| ContentRecord.HeadExample | src/module/LocalDbManager.cpp:629-650 | the head of a record with one page, as it stands in the file |
| ContentRecord.PagesTile | src/module/LocalDbManager.cpp:354-414 | the page entries tile the content from 0 to totallength |
| ContentRecord.LoadedIsSaved | src/module/LocalDbManager.cpp:354-414 | slicing the decompressed content by a page's offset and length gives exactly the bytes saved for that page |
| ContentRecord.LocalDb.SaveFirst | src/module/LocalDbManager.cpp:284-335 | a new record holds the one page, and its stored text reads back with exactly the given task, batch and number of the page |
| ContentRecord.LocalDb.Find | src/module/LocalDbManager.cpp:354-369 | finds a page if and only if it was saved |
| ContentRecord.LocalDb.SaveMore | src/module/LocalDbManager.cpp:371-440 | an existing record gets the page at its end, all earlier pages as they were; its stored text reads back with the old task and batch and one page more; every other record is as it was |
| ContentRecord.LocalDb.SaveContent | src/module/LocalDbManager.cpp:235-461 | a page that is there changes nothing; otherwise it is added at the end if the store succeeds, and the stored text reads back with the given task, batch and page number for a new record, with the old task and batch and the old total plus one for an existing one, no other record changing; a store refused for its length changes nothing, and one that runs out of space has lost the record |
| ContentRecord.LocalDb.AlterTotalPageForced | src/module/LocalDbManager.cpp:153-225 | sets the total to the pages there are, keeps task and batch, and touches no page and no other record, with the same endings of the store |
| HostSchedule.NextKeeps | src/module/UrlAnalyseManager.cpp:334-387 | a call of `getNextHost` keeps slots, queue and map together and every slot polite |
| HostSchedule.InsertKeeps | src/module/UrlAnalyseManager.cpp:227-302 | so does finding a slot for a new host |
| HostSchedule.Politeness | src/module/UrlAnalyseManager.cpp:334-387 | over any run, any max(1, localipnum) + 1 consecutive times a slot is given out, since it got its host, span the slot's interval; every slot is available or in the queue exactly once |
| HostSchedule.NothingOnlyEarly | src/module/UrlAnalyseManager.cpp:342-385 | in every run, a call gives nothing and leaves every slot as it is if and only if every slot in the queue ended its last turn less than its interval ago, or got its host less than two seconds ago |
| HostSchedule.GivenWhenDue | src/module/UrlAnalyseManager.cpp:342-381 | in every run, the top slot that is due is given out with its next address as long as there is one; with no local addresses once, unless its host was empty for too long |
| HostSchedule.AloneIsGiven | src/module/UrlAnalyseManager.cpp:342-357 | a host that is alone is given out by the first call at or after the end of its last turn plus its interval |
| HostSchedule.AddressesInOrder | src/module/UrlAnalyseManager.cpp:344-357 | in every run, the addresses with which a slot is given out are 1, 2, ..., localipnum, and then 1 again |
| HostSchedule.DroppedIff | src/module/UrlAnalyseManager.cpp:358-376 | in every run, a call drops the host at the top, and no other, if and only if its turn ends without a URL for it as a hundred of its turns in a row did before |
| HostSchedule.NewHost | src/module/UrlAnalyseManager.cpp:227-302 | a new host is due in two seconds, with the interval asked for, or that of the slot it got, which is 500 for a slot never used |
| HostSchedule.UrlAnalyseManager.GetNextHost | src/module/UrlAnalyseManager.cpp:334-387 | takes the step of the slot at the top, one with the least time; gives nothing and leaves the slots as they are if and only if no slot in the queue is due |
| HostSchedule.UrlAnalyseManager.FindEmptyVector | src/module/UrlAnalyseManager.cpp:310-318 | takes the first available slot, if there is one |
| HostSchedule.UrlAnalyseManager.InsertHost | src/module/UrlAnalyseManager.cpp:208-302 | a known host changes nothing; a new one takes the first available slot or a new one |
| ChunkedFile.FSBigFile.Tell | src/tools/FSBigFile.cpp:411-427 | the position in the concatenation of the chunks |
| ChunkedFile.FSBigFile.Read | src/tools/FSBigFile.cpp:178-221 | returns the next bytes of the concatenation, up to the end of the next chunk, and advances by them; end of file, and a read error at an empty chunk, exactly when they occur; the error leaves the position at that chunk |
| ChunkedFile.FSBigFile.Seek | src/tools/FSBigFile.cpp:310-395 | succeeds exactly for the targets that are valid, and then the position is the target; otherwise nothing moves |
| ChunkedFile.FSBigFile.Append | src/tools/FSBigFile.cpp:239-262 | extends the contents by exactly the buffer, leaves earlier chunks alone, adds a chunk exactly when the last one would grow too large, and keeps every chunk within the limit |
| ChunkedBody.MyConnection.ReadChar | src/tools/MyConnection.cpp:505-517 | takes exactly the next byte of the stream, however it arrived; negative only at the stream's end |
| ChunkedBody.MyConnection.ReadLine | src/tools/MyConnection.cpp:578-618 | takes exactly a line of the stream: the null pointer only when nothing is left to return, the buffer's length at most |
| ChunkedBody.MyConnection.Read | src/tools/MyConnection.cpp:666-712 | takes the bytes asked for, in order, through the buffer and any number of receives; all there is before an orderly end, -1 on an error |
| ChunkedBody.LineWhole | src/tools/MyConnection.cpp:578-618 | a line without breaks is returned whole, and only it taken, if and only if it is shorter than the caller's buffer |
| ChunkedBody.ScanSizeLine | src/tools/Http.cpp:112-163 | `sscanf` reads the size of any well-formed size line, whatever the variable held and whatever extension follows |
| ChunkedBody.ScansBack | src/tools/Http.cpp:112-163 | a number below 2^32 printed in base 16, in either case and with leading zeros, scans back to it before anything that is no digit; from 2^31 on as a negative int |
| ChunkedBody.ReadChunkedBody | src/tools/Http.cpp:92-175 | however the stream arrives, the count, the output and what is left of the stream are those of the decoding, and its loops end |
| ChunkedBody.Decodes | src/tools/Http.cpp:92-175 | a well-formed body, in any chunks: the output gains the content up to the limit, the count is the gain, and below the limit exactly the body is taken |
| ChunkedBody.DecodesPrinted | src/tools/Http.cpp:92-175 | a body of pieces whose sizes are printed in base 16: the output gains the data of the pieces up to 2097152 bytes, the count is the gain, and below the limit exactly the body is taken |
| ChunkedBody.DataAll | src/tools/Http.cpp:117-148 | reading in blocks is invisible: one chunk's data is delivered as one piece, up to the limit |
| ChunkedBody.DeliveredIff | src/tools/Http.cpp:103-163 | a chunk with a positive size comes out right, whatever its data and whatever follows, if and only if its size line has fewer than 63 characters |
| ChunkedBody.LongSizeLine | src/tools/Http.cpp:103-163 | of a longer size line the digits in the line buffer are the size, and the remainder of the line is read as data |
| ChunkedBody.StrayData | src/tools/Http.cpp:117-148 | so the output gets those stray characters, and as many of the chunk's own last ones are left for the next size line |
| ChunkedBody.TruncationCaught | src/tools/Http.cpp:92-175 | every stream that ends before the last size line is refused if and only if no size has a leading zero |
| ChunkedBody.HeaderOrderly | src/tools/Http.cpp:92-175 | on any input the output only grows, never beyond the limit, the count is -1 or the growth, and the input is taken from its front |

## Left out

- Locks, threads and the interleaving of database calls: `db_store` gives up its lock between deleting and storing
  again, so the database is modelled for sequential runs.
- I/O errors of the two database files, and `mylog_fatal`, which ends the process: a store that reaches it has the
  outcome `Died`.
- The text-data variant of the database, its statistics counters and its dump functions.
- The branch of `_db_findfree_cache` for a record that is neither readable nor free (lines 500-503), which cannot be
  reached from a well-formed file.
- Keys longer than 4061 characters or containing NUL: the index buffer has 4098 bytes, and the code does not guard
  it. Characters stand for bytes.
- Copying between `DBD` buffers by pointer: a buffer is passed and returned as a value.
- A record whose used length is negative in the text is refused by the model's parser; the code compares it as an
  unsigned number. No operation prints one.
- The order in which `_db_dodelete` prints the key and its blanks into overlapping memory: the key is taken to be
  read first.
- Saved positions that are not record boundaries: a caller only has positions the database reported.
- `DBAccess` routing over several databases, compaction, and `erase`, which returns after the first opened file.
- Allocation failure in `hash_table.c` (a failed rehash recurses without end) and bucket counts beyond an int.
- The block transformation of MD5, a fixed straight-line computation, is a parameter; words have 32 bits.
- XxTea.En: keys of at least 13 characters only, because the code reads four key words whether they are there or not.
- The hash `h` that follows the mixer, which is not injective and not claimed to be.
- UrlParse.Parse: of `parse` only the path; user, host, port and the rebuilt URL are left out.
- ContentRecord.HeadReads: headers shorter than 10^8 characters, the width of the length field; the database refuses
  longer ones. Numbers are not cut to 32 bits.
- ContentRecord.LocalDb.SaveContent: compression is a pair of functions of which one undoes the other and ignores
  what follows; the page header's text is taken as given.
- The memcached variant of content storage, `DelServer`, `ClearServers` and copying of the client.
- Combining requests by server, sending, and the replies to `set`, `delete` and counters.
- A memcached value of 2 GiB or more for a requested key, whose size becomes a negative int: the model refuses it.
- HashRing.MemCacheClient.AddServer: the library sort is one stable sort; stability is proved for every sorted order.
- HostSchedule.UrlAnalyseManager.GetNextHost: the clock does not go back; URL queues are seen only as empty or not;
  intervals are not negative. The library heap is a search for a least element.
- A clock before 1970, and `put` by a thread that does not hold the id.
- ChunkedFile.FSBigFile.Append: the disk takes every write whole; mode `w`, one branch of which falls through and
  writes twice, is not modelled.
- ChunkedBody.MyConnection.ReadChar: a receive that is interrupted or timed out is an error like any other; `0x` with
  no digit after it reads as zero, as the GNU library does, and `unsigned long` has 64 bits.
- The task heap of `TaskScheduleManager`, `ReadWriteBuffer` and the descriptor ring of `ExternalManager`: their claims
  are of the kinds already proved here.
- The bloom filter, regular expressions, sockets, MySQL, SQLite, logging and zlib.
