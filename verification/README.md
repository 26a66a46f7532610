# Siodb: block store, catalog, REST server, dump and process monitor

This project models parts of Siodb, a relational database server, and states what they guarantee. The
I/O manager, the dump tool and the process monitor are written in C++, the REST server in Go.

- **Block store** (`Bytes`, `Varint`, `RegistryTables`, `BlockRegistry`, `ColumnStore`, `MasterColumn`,
  `RowHistory`, `LobChain`, `LobReading`, `LobStream`, `LobWrite`, `LobDigests`, `LobBreaks`, `RollbackPaths`,
  `DigestChains`, `Column`, `ColumnRuns`). A column keeps its records in append-only blocks of fixed size. A registry
  of two byte files holds the state of each block and linked lists of next blocks. Closed blocks form a chain of
  digests, and a map lists blocks with free space. Fixed-width values, master records with a main index, and long
  values in linked chunks are written through the same allocator.
  `ColumnStore`, `MasterColumn`, `LobChain` and `LobWrite` say on values what each operation does; the classes
  `Registry`, `Column` and `Stream` carry the operations out. `ColumnRuns` is about all their runs.
- **Catalog** (`Catalog`, `DropTable`, `ConstraintDefs`, `TridCounters`, `IdGenerators`, `SystemObjectsFile`,
  `SystemObjects`). Seven registries refer to each other by id. The modules cover DROP TABLE, the sharing of
  constraint definitions, the generation of ids while the system tables come into being, and the file in which
  the system objects are saved.
- **REST server** (`ConnectionPool`, `JsonStreams`). The pool of connections is a system of steps in any
  interleaving; the two loops that carry JSON re-chunk bytes between buffers of different sizes.
- **Dump** (`SqlText`, `SqlValues`, `SqlDump`, `SqlReplay`). The script of SQL statements for a table, character by
  character, and its replay: the statements are read, and values go by column name to a new table.
- **Process monitor** (`ProcessMonitor`). The restart policy of a child process.
- `Counterexamples` holds concrete inputs for the surprises listed below, `Limits` the byte order of numbers and the
  sizes at which the code changes its behaviour.

Files are byte sequences whose writes happen completely or not at all; the hash function, the clock, the
results of system calls and the order in which hashed containers are visited are parameters. Where digests are
compared, the hash function is taken to tell apart the inputs that occur in the compared columns, since none of
fixed length can tell apart all inputs.

Where the code does not do what one would expect, the model follows the code and states the exact condition
under which the expectation holds:

- A fixed-width record that ends at the very end of its block cannot be read (`ColumnStore.FixedReadBack`).
- A master record of 2^14 bytes or more reads as empty (`MasterColumn.ReadBack`).
- A long value never reads back if its start block had no room for a header, for only 10 bytes are asked for a
  header of 20. A value that takes more than one further block reads back only after the column has got another
  block (`LobChain.ReadsBackLater`). A value that needs a new block leaves a wrong entry in the free-space map
  (`LobWrite.TextPutInv`); a value in more than one chunk leaves stale digests (`LobDigests.TextPutDigests`). A value
  written from a stream reads as NULL or cannot be read at all (`Column.Column.WriteLob`). A short text is cut at its
  first zero byte (`LobChain.TextLoads`).
- A rollback over several blocks sets the position in the wrong block (`ColumnStore.RollbackReachesPosition`), and
  lists closed blocks as available if it visits more than one (`ColumnStore.RollbackInv`).
- The registry cannot be read any more when, after the end of a list was linked, neither the block record can be
  written nor the link taken back (`BlockRegistry.Registry.AddNextBlock`).
- An existing next block is never reused, because the registry lists the parent under the child
  (`Column.ListedAreClosed`).
- DROP TABLE leaves dangling records behind unless all columns and constraints of the table can be reached from
  its column sets (`Catalog.DropKeepsIntegrity`).
- A table whose first user id is 1 hands out the system id 0 (`TridCounters.SystemIdsInRange`).
- Loading the system objects loses the hashes of constraint definitions (`SystemObjects.SaveAndLoadExactly`), so
  that a database creates its system constraint definitions once more when it is opened
  (`ConstraintDefs.RequestAfterLoading`). It reads them with right hashes from a system table afterwards.
- A request body whose length is a multiple of the buffer size is refused
  (`JsonStreams.Connection.WriteJSONPayload`).
- Replaying a dump changes negative 64-bit integers of 17 to 32 bits (`SqlReplay.DumpReplays`).

## Model

| member | source | states |
|---|---|---|
| `RegistryTables.BlockRoundTrip` | iomgr/lib/dbengine/BlockRegistry.cpp:578-597 | A block list record that fits its fields decodes to itself from its 25 bytes. |
| `RegistryTables.NextRoundTrip` | iomgr/lib/dbengine/BlockRegistry.cpp:561-576 | A next block list record decodes to itself from its 16 bytes. |
| `RegistryTables.WriteSlot` | iomgr/lib/dbengine/BlockRegistry.cpp:117-151 | Writing the record of one block changes no other record; records that appear when the file grows are "not present". |
| `RegistryTables.WriteState` | iomgr/lib/dbengine/BlockRegistry.cpp:153-173 | Overwriting the state byte of one record changes exactly that field of that record. |
| `RegistryTables.RecordKeeps` | iomgr/lib/dbengine/BlockRegistry.cpp:117-151 | Recording a block turns tables that represent a map from block ids to (state, previous, list) into tables that represent the updated map. |
| `RegistryTables.ExtendKeeps` | iomgr/lib/dbengine/BlockRegistry.cpp:175-326 | Appending a list record keeps all lists disjoint, with strictly rising offsets, and extends exactly one of them. |
| `RegistryTables.FirstRecordDoesNotShow` | iomgr/lib/dbengine/BlockRegistry.cpp:183-271 | The record at offset 0 belongs to no list, because offset 0 ends a list. |
| `RegistryTables.ViewIsUnique` | iomgr/lib/dbengine/BlockRegistry.cpp:77-108 | The bytes determine the map: there is only one way to read the lists. |
| `RegistryTables.UnlinkRestores` | iomgr/lib/dbengine/BlockRegistry.cpp:192-236 | Linking the end of a list and then writing a zero link gives back the bytes from before. |
| `BlockRegistry.Registry.FindNextBlockIds` | iomgr/lib/dbengine/BlockRegistry.cpp:77-108 | The walk over the list file ends and yields exactly the next ids of the block, in order; an unknown block is refused. |
| `BlockRegistry.Registry.FindPrevBlockId` | iomgr/lib/dbengine/BlockRegistry.cpp:52-75 | Yields the previous id of the block, or fails for an unknown one. |
| `BlockRegistry.Registry.RecordBlock` | iomgr/lib/dbengine/BlockRegistry.cpp:117-151 | Records state and previous id with an empty list, changes no other block, and keeps the largest id. |
| `BlockRegistry.Registry.UpdateBlockState` | iomgr/lib/dbengine/BlockRegistry.cpp:153-173 | Changes the state of one block and nothing else; fails for unknown blocks without changing anything. |
| `BlockRegistry.Registry.AddNextBlock` | iomgr/lib/dbengine/BlockRegistry.cpp:175-326 | Succeeds exactly when the block is known, the file has room and no needed write fails, and then appends the id to one list. A failed call leaves the registry with its old map and bytes, except when both the block write and the unlink fail after the end of a list was linked: then the files cannot be read as any map at all. |
| `RegistryTables.DanglingLink` | iomgr/lib/dbengine/BlockRegistry.cpp:192-271 | A list whose end is linked to a record that the block record does not know of has no reading. |
| `BlockRegistry.Registry.AddNextBlockWithRetry` | iomgr/lib/dbengine/BlockRegistry.cpp:192-326 | An attempt, and a second one if it fails, leave exactly the map and the bytes of one undisturbed attempt, for every combination of failing writes that does not leave a link behind. |
| `BlockRegistry.Registry.AddAll` | iomgr/lib/dbengine/BlockRegistry.cpp:175-326 | For every interleaving of additions each block lists exactly the ids added to it, in order, except the very first addition to an empty file. |
| `BlockRegistry.AddedLists` | iomgr/lib/dbengine/BlockRegistry.cpp:77-108 | The list of a block after a log of additions is its old list followed by the ids that the log adds to it. |
| `BlockRegistry.Registry.RecordBlockAndNextBlock` | iomgr/lib/dbengine/BlockRegistry.cpp:110-115 | Files the parent in the list of the new block, as the order of the arguments says. The registry stays valid whichever writes fail, because the list of a new block is empty and needs no link. |
| `BlockRegistry.Registry.OpenDataFiles` | iomgr/lib/dbengine/BlockRegistry.cpp:366-436 | Opens any files whose lengths are multiples of the record sizes and no others, and takes the sizes and the last block id from the lengths; a refusal changes nothing. Files that a registry wrote always open and show the same map and the same largest id. |
| `ColumnStore.AdvancedKeeps` | iomgr/lib/dbengine/Column_DataBlockManagement.cpp:93-151 | Closing a block and chaining a new one to it keeps the free-space map exact and all digests valid. |
| `ColumnStore.SelectionKeeps` | iomgr/lib/dbengine/Column_DataBlockManagement.cpp:60-91 | A selection keeps map and digests, leaves used bytes and closed blocks alone, and returns a listed block with enough room whenever the request fits a block. |
| `ColumnStore.SelectsLowest` | iomgr/lib/dbengine/Column_DataBlockManagement.cpp:60-91 | As long as some available block has room, nothing changes and the lowest such block is selected. |
| `ColumnStore.ClosesRoomiest` | iomgr/lib/dbengine/Column_DataBlockManagement.cpp:60-151 | When none has room, the block with the most is closed, taken off the map and followed by a new one; the other entries stay. |
| `ColumnStore.FixedWriteKeeps` | iomgr/lib/dbengine/Column_DataIO.cpp:316-459 | A fixed-width write succeeds exactly when the width fits a block; the record is then stored and nothing stored before changes. |
| `ColumnStore.FixedReadBack` | iomgr/lib/dbengine/Column_DataIO.cpp:21-60 | A stored fixed-width record reads back, now and in any later state that keeps used bytes, exactly when it does not end at the very end of its block. |
| `ColumnStore.RollbackInBlock` | iomgr/lib/dbengine/Column_General.cpp:193-262 | A rollback within one block sets the position, updates the map and keeps the invariant. |
| `ColumnStore.RollbackReachesPosition` | iomgr/lib/dbengine/Column_General.cpp:227-262 | A rollback, whether or not its walk meets the target, leaves the target block at the requested position exactly when it starts there or the block was at that position before. |
| `ColumnStore.RollKeepsWorkable` | iomgr/lib/dbengine/Column_General.cpp:227-262 | A rollback over any number of blocks keeps all blocks in shape and the map on existing blocks, whether or not it reaches its target. |
| `ColumnStore.RollbackInv` | iomgr/lib/dbengine/Column_General.cpp:193-262 | A rollback keeps the map exact and all digests right if and only if it visits no block but the one in which it starts: its first block is the target, or directly follows the target, or has no predecessor. |
| `RollbackPaths.RollReaches` | iomgr/lib/dbengine/Column_General.cpp:227-262 | The walk meets its target if and only if there is a chain of predecessors from the start block to it. |
| `RollbackPaths.RollWalks` | iomgr/lib/dbengine/Column_General.cpp:227-262 | Along such a chain every block before the target is emptied and listed with full room, except that the last of them is set to the requested position and room; the target itself and all other blocks and entries stay. |
| `RollbackPaths.RollRunsOut` | iomgr/lib/dbengine/Column_General.cpp:242-262 | A walk that does not meet its target empties exactly the blocks from the start block down to one without a predecessor. |
| `RollbackPaths.PathIsUnique` | iomgr/lib/dbengine/Column_General.cpp:227-262 | There is only one such chain, so that the outcome is determined. |
| `RollbackPaths.RollInBlock` | iomgr/lib/dbengine/Column_General.cpp:227-240 | A rollback that starts in its target changes the position and the map entry of that one block and nothing else. |
| `ColumnStore.FixedWriteUsed` | iomgr/lib/dbengine/Column_DataIO.cpp:316-459 | A fixed-width write keeps the column workable and every used byte, whatever the map says about free space. |
| `ColumnRuns.RunIsWorkable` | iomgr/lib/dbengine/Column_DataIO.cpp:316-679 | In every state of every run of fixed-width writes, long values of any length from memory or from streams that may fail in the middle, and rollbacks over any number of blocks, blocks have full size, chain down to closed blocks, and the map lists existing blocks only. |
| `ColumnRuns.RunUsedStays` | iomgr/lib/dbengine/Column_DataIO.cpp:316-679 | Between rollbacks no used byte of any block ever changes in such a run, although headers of long values are rewritten after their blocks were closed. |
| `ColumnRuns.StoredTextReadsBack` | iomgr/lib/dbengine/lob/ColumnLobStream.cpp:32-102 | The chunks of a long value stored in such a run stay in place until the next rollback. The value then reads back exactly when its start block had room for a header, and it takes at most one more block or the run has created a block since. |
| `ColumnRuns.Perform` | iomgr/lib/dbengine/Column_DataIO.cpp:316-679 | The operations of a column object, in any order, make such a run. |
| `ColumnRuns.StepInv` | iomgr/lib/dbengine/Column_DataIO.cpp:316-679 | One operation keeps the map exact and all digests right if and only if it stays in one block: a fixed-width write always, a text when it fits the selected block, any long value when nothing of it can be written, a rollback when it visits one block. |
| `ColumnRuns.RunKeepsInv` | iomgr/lib/dbengine/Column_DataBlockManagement.cpp:60-151 | As long as all operations of a run stay in one block in this sense, each map entry is the real free space of an open block, and each closed block carries the digest that its predecessor and content give. |
| `ColumnRuns.RunGrows` | iomgr/lib/dbengine/Column_DataBlockManagement.cpp:93-151 | Then closed blocks never change between rollbacks either. |
| `ColumnRuns.StoredRecordReadsBack` | iomgr/lib/dbengine/Column_DataIO.cpp:21-60 | A fixed-width record stored in any run, long values of any length included, stays in place until the next rollback and reads back exactly when it does not end at the end of its block. |
| `Column.FindBlock` | iomgr/lib/dbengine/Column_DataBlockManagement.cpp:60-81 | Finds the lowest available block with enough room, or else the lowest of the roomiest. |
| `Column.Column.CreateBlock` | iomgr/lib/dbengine/Column_DataBlockManagement.cpp:26-33 | Creates an empty block with the next id and files it in the registry, which still agrees with the blocks. |
| `Column.Column.Finalize` | iomgr/lib/dbengine/ColumnDataBlock.cpp:140-183 | Stamps and closes the block, stores the digest over the digest of its predecessor, the header fields and the used bytes, which stands for the whole chain (`DigestChains.DigestTellsChain`), and tells the registry; no other block changes. |
| `DigestChains.InputTellsParts` | iomgr/lib/dbengine/ColumnDataBlock.cpp:150-172 | What is hashed for a block determines the previous digest, the identity of the column, the block id, the time stamp, the length and the used bytes. |
| `DigestChains.DigestTellsChain` | iomgr/lib/dbengine/ColumnDataBlock.cpp:140-183 | For a hash that tells the blocks of two columns apart, closed blocks have the same digest if and only if they have the same id, the columns have the same identity, and all blocks down to the first agree in time stamp and used bytes. |
| `Column.ListedAreClosed` | iomgr/lib/dbengine/Column_DataBlockManagement.cpp:93-130 | The blocks that the registry lists for a block are closed, so an existing next block is never reused. |
| `Column.Column.CreateOrGetNextBlock` | iomgr/lib/dbengine/Column_DataBlockManagement.cpp:93-151 | Refuses requests of 0 or more than a block without any change; otherwise closes the block and continues in a fresh one. |
| `Column.Column.SelectAvailableBlock` | iomgr/lib/dbengine/Column_DataBlockManagement.cpp:60-91 | First fit in order of ids, else a new block after the roomiest one, else the very first block. |
| `Column.Column.WriteRecord` | iomgr/lib/dbengine/Column_DataIO.cpp:175-459 | Writes the encoded value at the next position of the selected block and updates the map; a write that does not fit leaves the positions alone. |
| `Column.Column.Rewind` | iomgr/lib/dbengine/Column_General.cpp:238-260 | Sets position and fill time of a block and lists it as available, without touching the registry. |
| `Column.Column.RollbackToAddress` | iomgr/lib/dbengine/Column_General.cpp:193-262 | Succeeds exactly when the start block is available, the target exists and is not later, the offset lies in the block, and the start block is linked to the target. It then empties exactly the blocks passed on the way and sets the position in the block that was passed last; otherwise nothing changes, or all blocks down to the first one are empty. |
| `MasterColumn.WriteKeeps` | iomgr/lib/dbengine/Column_DataIO.cpp:462-538 | One record written, refused or found to be a duplicate keeps the main index equal to the rows and every indexed record in place. |
| `MasterColumn.RunHoldsRows` | iomgr/lib/dbengine/Column_DataIO.cpp:462-538 | In every run, refused records included, the main index is the fold of the log and each indexed address holds the exact bytes of the latest record of its row. |
| `RowHistory.RowExists` | iomgr/lib/dbengine/Column_DataIO.cpp:462-538 | A table has a row exactly when some accepted insert of it is followed by no accepted delete. |
| `RowHistory.RunKeepsLatest` | iomgr/lib/dbengine/Column_DataIO.cpp:462-538 | In every run the main index lists exactly these rows, each with a record that holds the body of the last accepted update since, or else of the first accepted insert since the row lasts. |
| `MasterColumn.AcceptedWhenStored` | iomgr/lib/dbengine/Column_DataIO.cpp:471-500 | A record is accepted exactly when it fits the size limit and a block. |
| `MasterColumn.ReadBack` | iomgr/lib/dbengine/Column_DataIO.cpp:150-173 | A stored record reads back exactly when its body is shorter than 2^14 bytes; a longer one reads as empty, because only two bytes of its size are read. |
| `Column.Column.StoreMasterColumnRecord` | iomgr/lib/dbengine/Column_DataIO.cpp:500-538 | Writes the tagged record, then updates the index; a duplicate insert is noticed only after its bytes were written behind the used part. |
| `Column.Column.WriteMasterColumnRecord` | iomgr/lib/dbengine/Column_DataIO.cpp:462-538 | Succeeds exactly when the record is accepted and is not a duplicate insert. |
| `Column.Column.WriteLog` | iomgr/lib/dbengine/Column_DataIO.cpp:462-538 | After any log on a new column the index and the records are those of the fold of the log. |
| `LobChain.HeaderRoundTrip` | iomgr/lib/dbengine/LobChunkHeader.cpp:12-29 | A chunk header decodes to itself from its 20 bytes. |
| `LobChain.LayoutIsGood` | iomgr/lib/dbengine/Column_DataIO.cpp:542-603 | The chunks of a value follow each other without gap, fit their blocks, and all but the first lie at the start of consecutive new blocks. |
| `LobChain.LayoutCount` | iomgr/lib/dbengine/Column_DataIO.cpp:542-603 | A value takes at most two chunks exactly when it fits the rest of the first block and one new block. |
| `LobChain.HeaderLoads` | iomgr/lib/dbengine/Column_DataIO.cpp:727-765 | Every header on a stored chain passes all checks for loading and says where the chain goes on. |
| `LobChain.ReadStored` | iomgr/lib/dbengine/lob/ColumnLobStream.cpp:32-102 | A stored chain reads back exactly when its third and later chunks lie below the last block of the column; otherwise reading fails. |
| `LobReading.ReadsExactly` | iomgr/lib/dbengine/lob/ColumnLobStream.cpp:32-102 | Whatever the blocks contain, a value is read exactly when a chain of well-formed chunks holds it: each header fits its block and the rest of the value, and from the second on chunks are not empty and linked to a block before the last. |
| `Column.Column.WriteChunk` | iomgr/lib/dbengine/Column_DataIO.cpp:577-597 | Appends header and data behind the used part of a block. |
| `Column.Column.MoveToNextBlock` | iomgr/lib/dbengine/Column_DataIO.cpp:560-576 | Continues in a new block when a block has room for header and threshold, and rewrites the header of the last chunk in the block just closed. |
| `Column.Column.BlockForNextChunk` | iomgr/lib/dbengine/Column_DataIO.cpp:555-576 | Stays in the current block while a header fits; else closes it, continues in a new block and links the last header to it, or fails without any change. |
| `Column.Column.WriteNextChunk` | iomgr/lib/dbengine/Column_DataIO.cpp:554-600 | Each turn of the loop brings the column closer to the one state in which the loop ends. |
| `LobWrite.WrittenProgress` | iomgr/lib/dbengine/Column_DataIO.cpp:542-603 | For every value and every start block the loop, written as a recursive function, keeps all used bytes, and stores exactly the chunks of the layout whenever it completes. |
| `LobWrite.WrittenEntries` | iomgr/lib/dbengine/Column_DataIO.cpp:542-603 | The loop touches no other block if the value fits; else it lists the last new block as empty. It creates at most one block for each byte and one more. |
| `LobWrite.LastBlockIsUsed` | iomgr/lib/dbengine/Column_DataIO.cpp:542-603 | After a value has spilled, the last block holds its last chunk but is listed as empty. |
| `Column.Column.WriteBuffer` | iomgr/lib/dbengine/Column_DataIO.cpp:542-603 | The loop ends in exactly the state of the recursive function; it fails exactly when a new block is needed and blocks are too small for one; otherwise the chain of the whole value is stored chunk by chunk as laid out, and no byte below any old position changes. |
| `LobChain.WrittenReadsBack` | iomgr/lib/dbengine/lob/ColumnLobStream.cpp:32-102 | Right after the write, reading at the address of the value gives the value back exactly when the start block had room for a header and the value takes at most one more block; otherwise it fails. |
| `LobChain.StoredStays` | iomgr/lib/dbengine/lob/ColumnLobStream.cpp:32-102 | A stored chain stays stored in every later state that keeps used bytes. |
| `LobChain.ReadsBackLater` | iomgr/lib/dbengine/lob/ColumnLobStream.cpp:66-92 | In every later state that keeps used bytes the value reads back exactly when the start block had room for a header, and the value takes at most one more block or the column has got a block since; otherwise reading fails. |
| `Column.Column.WriteText` | iomgr/lib/dbengine/Column_DataIO.cpp:417-459 | Returns the address of the value. Right after the write, reading there gives the value back exactly when the start block had room for a header and one more block suffices; map and digests stay valid exactly when the value needs no new block or nothing could be written. |
| `LobWrite.TextPutKeeps` | iomgr/lib/dbengine/Column_DataIO.cpp:417-459 | A value of any length keeps the column workable and all used bytes, and is stored as a chain when its write completes. |
| `LobWrite.TextPutInv` | iomgr/lib/dbengine/Column_DataIO.cpp:417-459 | Map and digests together stay right if and only if the value fits the selected block, or blocks are too small and the start block has no room for a header. |
| `Column.Column.StreamNextChunk` | iomgr/lib/dbengine/Column_DataIO.cpp:618-676 | Each turn writes a chunk as the loop for values in memory does, however the stream cuts its bytes; if a read fails, the turn ends behind the header of that chunk. |
| `Column.Column.WriteStream` | iomgr/lib/dbengine/Column_DataIO.cpp:605-679 | Ends in the same state as writing from memory unless a read fails, which a stream that always delivers never does; then it breaks off behind a chunk header. Used bytes stay in any case. |
| `LobBreaks.BreakKeeps` | iomgr/lib/dbengine/Column_DataIO.cpp:649-671 | A write that breaks off after any number of chunks keeps the column workable and all used bytes, but always leaves a wrong entry in the map. |
| `Column.Column.WriteLob` | iomgr/lib/dbengine/Column_DataIO.cpp:417-436 | No value that is written from a stream can be read: at the address that is returned it reads as NULL if the start block had room for a header, and fails otherwise. The map stays right if and only if no read fails and nothing of the value can be written. |
| `LobDigests.RelinkedDigest` | iomgr/lib/dbengine/Column_DataIO.cpp:562-571 | One turn of the loop rewrites a header in a closed block, which changes the input of its digest, so the stored digest is right only if two different inputs hash alike. |
| `LobDigests.WrittenDigests` | iomgr/lib/dbengine/Column_DataIO.cpp:542-603 | When the loop has ended, the blocks of all chunks but the last have a stale digest and no other block has, for a hash function without collisions. A write that does not complete leaves all digests right. |
| `LobDigests.TextPutDigests` | iomgr/lib/dbengine/Column_DataIO.cpp:417-459 | A text leaves all digests right if and only if it takes a single chunk or does not complete; it takes a single chunk exactly when the start block, or a new block if the start block has no room for a header, can hold it. |
| `LobChain.ReturnedAddressLosesValue` | iomgr/lib/dbengine/Column_DataIO.cpp:545-603 | Reading at the first address that the writing loop itself returns never gives the value: it is the null address, which reads as NULL, when the start block has room for a header, and otherwise an address at which reading fails. |
| `LobChain.TextLoads` | iomgr/lib/dbengine/Column_DataIO.cpp:681-702 | A text that reads back is loaded unchanged exactly when it is long or has no zero byte. |
| `LobStream.Stream.Read` | iomgr/lib/dbengine/lob/ColumnLobStream.cpp:32-102 | Each read yields the next bytes of what is left, crossing chunks as needed; it fails only when the rest cannot be read. |
| `LobStream.ReadInPieces` | iomgr/lib/dbengine/lob/ColumnLobStream.cpp:32-102 | Reading with any buffer size gives the same as reading at once. |
| `DropTable.CaptureLinks` | iomgr/lib/dbengine/Database_Common.cpp:773-797 | Collects the links of a definition that lead to constraints, and groups the constraints by their definitions. |
| `DropTable.CaptureDefinitions` | iomgr/lib/dbengine/Database_Common.cpp:759-801 | Collects exactly the definitions of a column, with their links. |
| `DropTable.CaptureColumns` | iomgr/lib/dbengine/Database_Common.cpp:730-805 | Collects exactly the column sets of the table and the existing columns that they list, each once. |
| `DropTable.FilterGroups` | iomgr/lib/dbengine/Database_Common.cpp:807-823 | Keeps exactly the constraint definitions all of whose constraints were collected. |
| `DropTable.Database.EraseColumns` | iomgr/lib/dbengine/Database_Common.cpp:1025-1033 | Erases the collected columns, their definitions and their constraints. |
| `DropTable.Database.Drop` | iomgr/lib/dbengine/Database_Common.cpp:658-1039 | Drops the named table from all seven registries; a missing table changes nothing and is an error only if it must exist. |
| `Catalog.DropKeepsIntegrity` | iomgr/lib/dbengine/Database_Common.cpp:725-838 | All references stay intact exactly when every column and constraint of the table can be reached from its column sets. |
| `Catalog.UnlistedColumnIsLeftBehind` | iomgr/lib/dbengine/Database_Common.cpp:746-757 | A column that no column set lists is left behind with a dangling table id. |
| `Catalog.DropLeavesOthers` | iomgr/lib/dbengine/Database_Common.cpp:725-838 | Nothing of any other table changes, the constraint definitions that it uses included. |
| `Catalog.DropRemovesUnusedDefinitions` | iomgr/lib/dbengine/Database_Common.cpp:807-823 | A constraint definition that the dropped table used goes exactly when no constraint that is left uses it. |
| `Catalog.DropKeepsHealthy` | iomgr/lib/dbengine/Database_Common.cpp:725-1039 | Dropping tables in any order keeps the whole catalog intact and every remaining table reachable. |
| `ConstraintDefs.Definitions.Find` | iomgr/lib/dbengine/Database_Common.cpp:138-150 | For any registry, the search in the bucket of the hash agrees with a full scan exactly when nothing answers the request or some answering definition stores the right hash. |
| `ConstraintDefs.Definitions.FindOrCreate` | iomgr/lib/dbengine/Database_Common.cpp:1401-1432 | Returns a definition with the requested range, type and expression; creates one, with a fresh id, exactly when none with the right stored hash exists, and so doubles a definition exactly when all its copies store a wrong hash; fails only when the range of ids is used up. |
| `ConstraintDefs.NothingMissed` | iomgr/lib/dbengine/Database_Common.cpp:138-150 | Where no definition is there twice, the search misses none for any request if and only if every definition stores its own hash. |
| `ConstraintDefs.RequestAfterLoading` | iomgr/lib/dbengine/Database_Init.cpp:212-226 | Opening a database asks for definitions that have just been loaded: one is found, and not created a second time, if and only if its hash is that of an empty definition. |
| `ConstraintDefs.LoadedHits` | iomgr/lib/dbengine/Database_SysTablesIO.cpp:218-235 | A loaded registry answers the same requests as the saved one, but finds an answer only to requests with the hash of an empty definition. |
| `ConstraintDefs.Definitions.RunRequests` | iomgr/lib/dbengine/Database_Common.cpp:133-163 | In every run, also one that begins with a loaded registry, two requests get the same definition exactly when they agree in range, type and expression. |
| `ConstraintDefs.Definitions.Erase` | iomgr/lib/dbengine/Database_Common.cpp:1035-1039 | Erasing definitions keeps the remaining ones unique and findable. |
| `TridCounters.DrawSystemIds` | iomgr/lib/dbengine/Column_General.cpp:298-313 | The system ids of a new table are 1, 2, ... below the first user id; none for 0, and the single id 0 for 1. |
| `TridCounters.SystemIdsInRange` | iomgr/lib/dbengine/Column.h:466-477 | System ids are positive and below the first user id, however many are drawn, exactly when the first user id is not 1. |
| `TridCounters.DrawnUserIdsIncrease` | iomgr/lib/dbengine/Column_General.cpp:281-331 | However draws of user ids and settings of the last user id are mixed, failing ones included, the ids drawn strictly increase, so none is handed out twice. |
| `IdGenerators.NextAgrees` | iomgr/lib/dbengine/Database_Common.cpp:323-396 | The next id is one more than the number of ids of its kind and range so far, until the range is used up. |
| `IdGenerators.Generators.GenerateNextId` | iomgr/lib/dbengine/Database_Common.cpp:323-396 | Draws the next id of a kind, from the temporary counter or from the table, and refuses exactly when the range is used up. |
| `IdGenerators.Generators.HandOver` | iomgr/lib/dbengine/Database_Init.cpp:289-343 | A new system table goes on where the temporary counter stopped; fails exactly when that lies beyond the system range. |
| `IdGenerators.Generators.HandOverTables` | iomgr/lib/dbengine/Database_Init.cpp:277-281 | The one discarded id makes SYS_TABLES go on after its own id. |
| `IdGenerators.Generators.CreateSystemTables` | iomgr/lib/dbengine/Database_Init.cpp:277-343 | Creating the system tables succeeds if and only if, for every kind, all system ids drawn before and during the creation fit below the first user id; all ten kinds are then handed over, and exactly the ids for the tables and their parts have been drawn. |
| `IdGenerators.DrawnIdsAreDistinct` | iomgr/lib/dbengine/Database_Init.cpp:277-343 | All ids ever drawn of a kind are different, system ids below the first user id and user ids not. |
| `SystemObjectsFile.SectionBack` | iomgr/lib/dbengine/Database_SysTablesIO.cpp:92-214 | A section reads back, in whatever order it was written, exactly when no record exceeds the limit, and reading ends where the section ends. |
| `SystemObjectsFile.Serializer.Serialize` | iomgr/lib/dbengine/Database_SysTablesIO.cpp:92-147 | Appends a section with exactly the objects of the system range, each once. |
| `SystemObjectsFile.Serializer.Deserialize` | iomgr/lib/dbengine/Database_SysTablesIO.cpp:149-214 | Reads a section, failing at the end of the file, for an oversized or undecodable object, or for a repeated id. |
| `SystemObjects.Save` | iomgr/lib/dbengine/Database_SysTablesIO.cpp:237-262 | Writes the seven sections one behind the other. |
| `SystemObjects.Load` | iomgr/lib/dbengine/Database_SysTablesIO.cpp:218-235 | Reads the seven sections one behind the other, or fails. |
| `SystemObjects.SavedLoads` | iomgr/lib/dbengine/Database_SysTablesIO.cpp:218-262 | A saved file loads exactly when no system record exceeds the limit, and gives back what the codecs keep of all system records. |
| `SystemObjects.SaveAndLoad` | iomgr/lib/dbengine/Database_SysTablesIO.cpp:218-262 | Saving and then loading yields exactly that. |
| `SystemObjects.DefinitionRoundTrip` | iomgr/lib/dbengine/reg/ConstraintDefinitionRecord.cpp:43-98 | A constraint definition decodes to itself except for its hash, which is that of an empty definition. |
| `SystemObjects.RestoredExactly` | iomgr/lib/dbengine/reg/ConstraintDefinitionRecord.cpp:63-98 | What is loaded equals what was saved exactly when every saved constraint definition has the hash of an empty one. |
| `SystemObjects.DefinitionsRoundTrip` | iomgr/lib/dbengine/reg/ConstraintDefinitionRecord.cpp:43-98 | Every registry of constraint definitions survives its codec up to the hashes. |
| `SystemObjects.SaveAndLoadExactly` | iomgr/lib/dbengine/Database_SysTablesIO.cpp:218-262 | Saving and then loading yields the system records themselves if and only if all of them fit the limit and all constraint definitions among them store the hash of an empty definition. |
| `ConnectionPool.StepKeeps` | rest_server/IOMgrConnPool.go:84-130 | Every step keeps the count exact and within its limits and every connection in one place. What each step does to connections is stated over runs in the rows below. |
| `ConnectionPool.RunKeepsInv` | rest_server/IOMgrConnPool.go:59-130 | In every interleaving the total equals queued plus in-flight plus held connections and stays in 0..max, and no two requests hold one connection. |
| `ConnectionPool.ChannelIsNeverFull` | rest_server/IOMgrConnPool.go:101-130 | The channel-full branch is never taken and sending to the channel never blocks. |
| `ConnectionPool.ClosedIsNeverReused` | rest_server/IOMgrConnPool.go:84-130 | In every run, once a request has closed its connection, nobody else ever gets it: it is held by that request or gone. |
| `ConnectionPool.LeaseIsWhatWasTaken` | rest_server/IOMgrConnPool.go:101-111 | A request holds the connection that was first in the channel when it took one, counted as open exactly until it closes it. |
| `ConnectionPool.ReturnOutcome` | rest_server/IOMgrConnPool.go:113-130 | A returned connection goes to the end of the channel and stays counted if the request has not closed it; otherwise it is uncounted and gone. |
| `ConnectionPool.CanAlwaysReturn` | rest_server/IOMgrConnPool.go:113-130 | A request that holds a connection can always close it and always return it, in the one way that fits. |
| `ConnectionPool.CreatesUpToLimit` | rest_server/IOMgrConnPool.go:84-99 | A goroutine can create a connection exactly when there are fewer than the limit, wherever they are. |
| `ConnectionPool.WaitingDoNotHold` | rest_server/IOMgrConnPool.go:101-111 | A waiting request holds no connection and can take one exactly when the channel has one. |
| `ConnectionPool.PoolFills` | rest_server/IOMgrConnPool.go:84-111 | For every number up to the limit there is a run that fills the channel with that many connections. |
| `JsonStreams.Connection.ReadVarint32` | rest_server/IOMgrConnection.go:292-366 | Reads a number byte by byte, five bytes at most, consuming exactly its bytes, and cuts it to 32 bits. |
| `JsonStreams.Connection.ReadFull` | rest_server/IOMgrConnection.go:271-290 | Fills the given part of the buffer from the input, or fails when the input is too short. |
| `JsonStreams.Connection.PassChunk` | rest_server/IOMgrConnection.go:207-231 | Passes a chunk of any size on in pieces of exactly the buffer size, keeping the rest in the buffer. |
| `JsonStreams.Connection.ReadChunkedJSON` | rest_server/IOMgrConnection.go:175-258 | Succeeds exactly for a well-formed stream; the pieces written then make up its payload, all but the last of exactly the chunk size; 32- and 64-bit counters never wrap, and the mismatch error is unreachable. |
| `JsonStreams.FramedPayload` | rest_server/IOMgrConnection.go:175-258 | For every sequence of chunk sizes the payload of the framed stream is the concatenation of the chunks, and its end is found exactly. |
| `JsonStreams.Connection.WriteJSONPayload` | rest_server/IOMgrConnection.go:36-110 | Succeeds exactly when the length is no multiple of the buffer size and the last full buffer ends within the limit; the output then carries exactly the body. |
| `Varint.VarintRoundTrip` | rest_server/IOMgrConnection.go:84-110 | A number decodes to itself from its varint, whatever follows. |
| `SqlText.FixSingleQuotes` | iomgr/lib/dbengine/parser/AntlrHelpers.cpp:15-25 | Taking one quote out of every pair, in place, undoes pairs from the left. |
| `SqlText.UndoubledDoubled` | siocli/lib/SqlDump.cpp:835-847 | Text with doubled quotes gives back the text. |
| `SqlText.NumberBack` | siocli/lib/SqlDump.cpp:760-815 | A decimal number reads back when no digit follows. |
| `SqlText.UnhexHex` | siocli/lib/SqlDump.cpp:849-860 | Hexadecimal digits give back the bytes. |
| `SqlValues.ReadBack` | siocli/lib/SqlDump.cpp:750-860 | Every NULL, boolean, integer, text and binary value is read by the parser for what it was written as. |
| `SqlValues.ConvertedBack` | common/lib/siodb/iomgr/shared/dbengine/Variant_Arithmetics.cpp:12-27 | A value arrives unchanged in a column of its type exactly when it is not a negative 64-bit integer of 17 to 32 bits; such a one arrives 2^32 larger. |
| `SqlDump.DumpTable` | siocli/lib/SqlDump.cpp:127-200 | Writes the script: a SET NEXT_TRID before every gap in the row ids, and an INSERT with column names for every row. The statements read back to their table, columns and values (`SqlReplay.InsertBack`, `SqlReplay.AlterBack`). |
| `SqlDump.AlterExample` | siocli/lib/SqlDump.cpp:939-945 | The text of one SET NEXT_TRID statement. |
| `SqlDump.InsertHeadExample` | siocli/lib/SqlDump.cpp:170-177 | The text of one INSERT statement up to its values. |
| `SqlDump.ValueExamples` | siocli/lib/SqlDump.cpp:750-860 | The texts of a negative number, a text with a quote and a byte. |
| `SqlDump.RowExample` | siocli/lib/SqlDump.cpp:179-192 | The text of one row of values. |
| `SqlReplay.NameBack` | iomgr/lib/dbengine/parser/AntlrHelpers.cpp:27-39 | A name is read in upper case, up to the first character that cannot be part of it. |
| `SqlReplay.AlterBack` | siocli/lib/SqlDump.cpp:939-945 | A SET NEXT_TRID statement reads back to its database, table and number. |
| `SqlReplay.InsertBack` | siocli/lib/SqlDump.cpp:155-196 | An INSERT statement reads back to its database and table, its column names in order and its values in order. |
| `SqlReplay.PlaceValues` | iomgr/lib/dbengine/Table.cpp:189-253 | Puts each value into the column of its name and defaults into the others; fails exactly when the numbers of names and values differ, a name is unknown or a name is repeated. |
| `SqlReplay.ReplayAlter` | iomgr/lib/dbengine/handlers/RequestHandler_DDL.cpp:614-642 | A SET NEXT_TRID for an id that is ahead passes the guard and makes it the next id. |
| `SqlReplay.ReplayRow` | siocli/lib/SqlDump.cpp:155-196 | The statements for a row insert it under its own id, each value under its own column name. |
| `SqlReplay.DumpReplays` | siocli/lib/SqlDump.cpp:127-200 | For every table with rising row ids, replayed on a table with the same columns in any order, the replay never fails and rebuilds all row ids. It rebuilds all values, each under its column name, exactly when none is misread. |
| `SqlReplay.MisreadExample` | common/lib/siodb/iomgr/shared/dbengine/Variant_Arithmetics.cpp:20-20 | The dump of a 64-bit column with the value -100000 replays to a column with the value 4294867296. |
| `SqlReplay.OtherOrderExample` | iomgr/lib/dbengine/Table.cpp:189-253 | Dumped columns A, B with values 1, 2 come back as 2, 1 in a table with columns B, A. |
| `SqlReplay.LowerCaseExample` | siocli/lib/SqlDump.cpp:939-945 | The dump of a table with a lower-case name cannot be replayed. |
| `Counterexamples.LastRecordOfBlock` | iomgr/lib/dbengine/Column_DataIO.cpp:35-40 | Two records of 8 bytes are written to a new column with blocks of 16 bytes; the first one reads back and the second one does not. |
| `Counterexamples.LongMasterRecord` | iomgr/lib/dbengine/Column_DataIO.cpp:150-173 | A master record with a body of 2^14 bytes, written to a new column, reads as empty. |
| `Counterexamples.ThreeChunks` | iomgr/lib/dbengine/lob/ColumnLobStream.cpp:82-88 | A value of 561 bytes written to a new column with blocks of 300 bytes cannot be read, until a second one has been written. |
| `Counterexamples.NoRoomForHeader` | iomgr/lib/dbengine/Column_DataIO.cpp:560-566 | A text of 10 bytes behind a record of 285 bytes in blocks of 300 can never be read, although all digests are right. |
| `Counterexamples.SpilledText` | iomgr/lib/dbengine/Column_DataIO.cpp:542-603 | A text of 281 bytes on a new column with blocks of 300 reads back, but a block has a stale digest and the last block is listed as empty. |
| `Counterexamples.TextWithZeroByte` | iomgr/lib/dbengine/Column_DataIO.cpp:681-702 | The text "A", zero byte, "B" is loaded as "A". |
| `Counterexamples.StreamReadsAsNull` | iomgr/lib/dbengine/Column_DataIO.cpp:417-426 | Three bytes written from a stream to a new column read as NULL. |
| `Counterexamples.RollbackOverBlocks` | iomgr/lib/dbengine/Column_General.cpp:227-262 | After three records in three blocks, a rollback from block 3 to byte 5 of block 1 leaves block 1 at byte 20, and the column inconsistent. |
| `Counterexamples.HashIsLost` | iomgr/lib/dbengine/reg/ConstraintDefinitionRecord.cpp:63-98 | A loaded constraint definition differs in its hash from the one saved. |
| `Counterexamples.DefinitionIsDoubled` | iomgr/lib/dbengine/Database_Init.cpp:212-226 | After a database is opened two constraint definitions answer the same request. |
| `Limits.WordBytes` | common/lib/siodb/common/utils/PlainBinaryEncoding.h:105-123 | A 32-bit number is stored as its four bytes, the least significant one first. |
| `Limits.TextBehindRecord` | iomgr/lib/dbengine/Column_General.cpp:36-50 | In blocks of 300 bytes a text of 10 bytes behind a record of n bytes cannot be read exactly for n from 281 to 290. |
| `Limits.TextForTwoBlocks` | iomgr/lib/dbengine/Column_DataIO.cpp:555-570 | A text that needs a second block can be written exactly when blocks have at least 276 bytes. |
| `Limits.LongestRow` | iomgr/lib/dbengine/Column_DataIO.cpp:471-500 | In blocks of 32768 bytes or more a row is accepted exactly up to a body of 32765 bytes. |
| `Limits.ZeroTextLoads` | iomgr/lib/dbengine/Column.h:804-804 | A text of zero bytes is loaded unchanged exactly when it is empty or has at least 1048576 bytes. |
| `Limits.SizesRead` | rest_server/IOMgrConnection.go:292-366 | A chunk length is read exactly when it is below 2^35, and is cut to 32 bits. |
| `Limits.LongestChunk` | rest_server/IOMgrConnection.go:196-206 | A single chunk is accepted exactly up to 2147483647 bytes. |
| `Limits.LongestExpression` | iomgr/lib/dbengine/Database_SysTablesIO.cpp:37-37 | A constraint definition can be loaded exactly up to an expression of 65514 bytes. |
| `Limits.LaterVersions` | iomgr/lib/dbengine/reg/ConstraintDefinitionRecord.cpp:72-78 | A constraint definition in a later version of its format is not loaded. |
| `Limits.LiteralTypes` | iomgr/lib/dbengine/parser/ExpressionFactory.cpp:193-208 | A number in a script gets the smallest unsigned type of 8, 16, 32 or 64 bits that holds it. |
| `Limits.SignedWords` | common/lib/siodb/iomgr/shared/dbengine/Variant_Arithmetics.cpp:20-20 | A signed 64-bit value comes back from a dump exactly when it is not between -4294967295 and -65536. |
| `ProcessMonitor.Monitor.StartProcess` | siodb/lib/ProcessMonitor.cpp:65-90 | A successful start is remembered, pushing out the oldest of three. |
| `ProcessMonitor.Monitor.OnExit` | siodb/lib/ProcessMonitor.cpp:167-199 | Starts again exactly when the exit code is not fatal, the last three starts span the minimum time and the monitor has not been told to stop; it gives up exactly when the exit code is fatal or the last three starts are closer. |
| `ProcessMonitor.Monitor.ThreadMain` | siodb/lib/ProcessMonitor.cpp:142-208 | For any turns of events the monitor goes on if and only if the child has not ended with a fatal exit code or with its last three starts less than the minimum time apart. No start follows a fatal exit code, and the number of starts is bounded. |
| `ProcessMonitor.RestartRate` | siodb/lib/ProcessMonitor.cpp:175-186 | Any N starts that span the time E satisfy N <= 2 * floor(E / M) + 3 for the minimum time M. |
| `ProcessMonitor.RestartRateIsSharp` | siodb/lib/ProcessMonitor.cpp:175-186 | For every k there are allowed starts that reach this bound. |
| `ProcessMonitor.Reach` | siodb/lib/ProcessMonitor.cpp:142-208 | Every rising list of times in which any three starts that are followed by a fourth span the minimum time is the list of starts of some run of the monitor. |
| `ProcessMonitor.ReachBound` | siodb/lib/ProcessMonitor.cpp:175-186 | The monitor itself reaches the bound on the number of starts, for every k. |
| `ProcessMonitor.LogComesFromTurns` | siodb/lib/ProcessMonitor.cpp:142-208 | Every start happens at the time of some turn in which the system could create the process, and every end is an exit that some turn waited for. |

## Left out

- Block objects in place: blocks are values in a map of the column, so aliasing of block objects, the cache of
  blocks with eviction and reload, and failing reads and writes of block data files are not modelled.
- Column.Column.WriteText: after a value has spilled into new blocks the code writes through an erased map entry;
  the model updates the entry only if it is still there.
- Column.Column.FindUsableNextBlock: states that a usable listed block is found if there is one, not which of
  several, since none is ever usable.
- Column.Column.WriteBuffer: block ids are taken to stay below 2^58, which keeps the registry within the largest file
  size, and blocks to be larger than a chunk header.
- Column.Column.WriteStream: the same, and streams are taken to know their remaining size.
- ConstraintDefs.Definitions.FindOrCreate: the cache of loaded definition objects beside the registry, and the
  later reading of the registry from its system table, are not modelled.
- IdGenerators.Generators.GenerateNextId: temporary counters are taken to stay below 2^32 - 2^16.
- SystemObjects.SavedLoads: the codecs of the registries other than constraint definitions are parameters that
  give back what they encode.
- SqlValues.ReadBack: numbers are read as unbounded digits below 2^64; floating-point and timestamp columns are not
  modelled, and other spellings of literals than the dump writes are not read.
- ProcessMonitor.Monitor.ThreadMain: the waiting times between turns and the termination of the child at shutdown
  are not modelled.
- SqlReplay.DumpReplays: names are taken to be upper-case identifiers, which is how the parser makes all names, that
  are not keywords; quoted names are not read.
- ConnectionPool.RunKeepsInv: closing all connections at shutdown, and a connection that is returned twice, are not
  modelled.
- Deleting the rows of system tables in DROP TABLE and undoing that: only the registries in memory are modelled.
- Encryption, digest algorithms, checks of permissions, locks and logging.
- Reading and recording catalog objects as table rows: would only add easy members.
- Protocol Buffers messages, HTTP handlers, configuration and command-line programs: would only add easy members.
