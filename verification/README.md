# Verified models of the emulator's host tools

This project models, in Dafny, three systems and three smaller tools of the emulator's host code, and
proves what their runs keep.

* **The trace pipeline** (`emulator/qtools`). A variable-length integer decoder over a sliding buffer
  (`Varint`, `Decoding`); the delta-coded basic-block records (`BBStream`) and the merge of their
  repetitions into one stream in time order, first as a specification (`BBMerge`) and then as the
  reader that threads two lists through one array (`Futures`, `BBReading`); the bytes of the pid and
  exception files (`SideStream`) and the readers that look ahead in them (`Lookahead`); the merge of
  loads and stores (`AddrMerge`). Then the address spaces of the traced processes, with their shared,
  counted regions (`AddressMaps`, `AddressChanges`, `AddressEvents`, `AddressReading`), the searches and the cache that resolve an address (`Searching`,
  `Lookup`, `SymbolTables`), the pid events and the method stacks that they follow (`PidFollower`,
  `MethodLookup`), and the hash table they use (`Bits`, `HashTables`).
* **The qemud multiplexer** (`emulator/qemud`). The hexadecimal codec and the frame parser
  (`Framing`), the packets and their queues (`Chains`, `PacketHeap`, `PacketWorld`), the serial port
  (`SerialPort`), the line from end to end (`SerialLine`), the event loop (`EventLoop`) and the clients
  and channels (`Multiplexing`).
* **The call-stack reconstructor** (`emulator/qtools/callstack.h`) with the shadow stacks and thread
  switching of its client q2dm (`CallStacks`, `Q2dm`), and what it reconstructs of ordinary calls
  (`CallTrees`).
* **Smaller tools**: the nested basic blocks of bbprof and the time it attributes (`InnerBlocks`,
  `ProfileTimes`), the gtrace output file (`GtraceFile`), and the FAT32 image of mksdcard (`Mksdcard`),
  whose sizing follows the section "FAT Volume Initialization" of Microsoft's fatgen103.

How the models are built:

* Code that changes objects in place is a class whose methods are proved against a function or a
  specification. Structures linked by pointers live in sequences indexed by allocation number, so that a
  pointer is an index; a ghost owner or a ghost list says which list an element is on.
* A property that a proof only hands on is folded into a status (`Folding`), which spares the proof its
  contents; `Options` holds the option type the modules share.
* Machine integers are written out (`uint32`, `uint64`, `% TWO32`, `ToInt64`) where the code's arithmetic
  can wrap.
* Files are byte sequences; a socket's reads are arbitrary chunks and its writes take an arbitrary part;
  `epoll` is a map from descriptors to masks and hook addresses. What a callback does to the event loop
  is an arbitrary list of operations.

Where the code keeps a property only under a condition, the exact condition is proved:

* `AddressEvents.MappedSoundIff`: an mmap keeps the reference counts, whatever the memory of deleted
  regions holds, exactly when the hash table does not lead it to a deleted region;
  `AddressEvents.MapExecMap` is the run that does.
* `Lookup.HitRightIff`: a hit in the lookup cache is right exactly when the region now at the address has
  the same symbol array and finds the same symbol from its own base (`HitRightIffTable`: where regions with
  one array have one base, exactly when it has the same array). `SymbolTables.StaleHit` is the run that gets a
  wrong one: look an address up, unmap its region, which another process still uses, map another file
  there, and look it up again.
* `Lookup.FunctionLookup.LookupFunction`: it leaves a NULL pointer in the cache, which the next lookup in
  the same process follows, exactly when the address lies before the first symbol of its region
  (`NoSymbolIff`); the sentinel at address 0 that rules this out is in ELF files' tables but not in
  those of dex files.
* `EventLoop.AddAgreesIff`: adding a descriptor keeps the loop's hooks and registrations in agreement
  exactly when no hook has it, not even one that is closing and not yet swept.
* `InnerBlocks.ConservedIff`: cutting nested blocks loses no instruction exactly when a block that starts
  inside another has as many instructions as are left of it.
* `Multiplexing.ControlSafeIff`: a control message keeps every registered client on a channel exactly
  when it does not accept a connection under malformed digits while some client has no channel;
  `Multiplexing.MalformedReplyRegisters` is the shortest such run.
* `Mksdcard.FreeCountIff`: the free-cluster count is right exactly below 260 MiB, where a cluster is one
  sector.
* `Varint.BranchesAgreeIff`: the two branches of the decoder agree exactly on codes with no reserved
  prefix, but for those that end in the prefix's own data.

Where the code and its comments disagree the model follows the code: the comment above
`Decoder::Decode` calls prefix 11111101 reserved, but the tables decode it like 11111100; a comment in
`mksdcard.c` calls a sector count the number of free clusters; a comment in `FindFunction` counts on a
symbol at address 0, which the tables of dex files do not have.

## Model

| member | source | states |
|---|---|---|
| Varint.BranchesAgree | emulator/qtools/decoder.cpp:204-278 | for every prefix below 0xfe the wide-load branch and the byte-by-byte branch compute the same 64-bit value, signed or not |
| Varint.BranchesAgreeIff | emulator/qtools/decoder.cpp:204-278 | over all codes the branches agree if and only if the prefix is not reserved or the last eight bytes happen to hold the prefix's own data |
| Varint.DecodeEncode | emulator/qtools/decoder.cpp:193-278 | every value that fits a code length is read back from its code, by the wide-load branch and by the byte-by-byte branch |
| Decoding.Decoder.FillBuffer | emulator/qtools/decoder.cpp:138-165 | what is in the buffer followed by what is left of the file is unchanged by refilling, and the buffer then holds enough for a code or all that is left |
| Decoding.Decoder.Read | emulator/qtools/decoder.cpp:167-184 | a read of any length takes exactly the next bytes of the stream, across refills |
| Decoding.Decoder.DecodeBytewise | emulator/qtools/decoder.cpp:211-232 | the byte-by-byte branch decodes the first code of the stream or reports the end in the middle of one |
| Decoding.Decoder.Decode | emulator/qtools/decoder.cpp:233-278 | so does the branch that loads whole words past the end of what was read |
| Decoding.LoadedField | emulator/qtools/decoder.cpp:234-276 | the shifted and masked word is the field, whatever lies behind the code in the buffer |
| Decoding.SuccessiveDecodes | emulator/qtools/decoder.cpp:193-278 | decoding a concatenation of codes gives the encoded values in order and leaves the rest of the stream |
| BBStream.ReadRecOfDelta | emulator/qtools/trace_reader.cpp:109-132 | one record written with any code lengths is read back as the sum of its differences |
| BBStream.ParseWritten | emulator/qtools/trace_reader.cpp:109-132 | a whole file of records is read back, up to its end-of-file mark |
| BBStream.SumsIncrease | emulator/qtools/trace_reader.cpp:114-118 | start times increase as long as the summed differences do not wrap around |
| BBMerge.ExpandAt | emulator/qtools/trace_reader.cpp:196-209 | execution k of a record is at start_time + k * time_diff |
| BBMerge.RunOrder | emulator/qtools/trace_reader.cpp:161-259 | the merged stream is in time order |
| BBMerge.RunContents | emulator/qtools/trace_reader.cpp:161-259 | the merged stream is exactly the multiset of executions of all records and pending repetitions |
| BBMerge.RunLength | emulator/qtools/trace_reader.cpp:161-259 | its length is the number of executions, so reading ends |
| BBMerge.PeakOfRepeaters | emulator/qtools/trace_reader.cpp:74-80 | no more futures are ever needed than there are pending ones and records that repeat |
| BBMerge.RunStep | emulator/qtools/trace_reader.cpp:161-259 | one ReadBB is one step of the merge |
| SideStream.ParsePidsWritten | emulator/qtools/trace_reader.cpp:440-527 | a pid file written with records of any kinds, any strings and any code lengths reads back: every time difference, and the pid of every switch |
| SideStream.ParseExcsWritten | emulator/qtools/trace_reader.cpp:387-411 | a written exception file reads back: every record number difference and instruction count |
| SideStream.DecodePid | emulator/qtools/trace_reader.cpp:440-527 | one call takes exactly one record with its fields off the stream, or its end, or exits on a truncated one |
| SideStream.DecodeExc | emulator/qtools/trace_reader.cpp:387-411 | likewise for an exception record |
| Futures.FutureTable.constructor | emulator/qtools/trace_reader.cpp:134-146 | after Open every future is on the free list and none is pending |
| Futures.FutureTable.AllocFuture | emulator/qtools/trace_reader.cpp:74-79 | takes one future off the free list; the two lists and it still cover the array without overlap |
| Futures.FutureTable.FreeFuture | emulator/qtools/trace_reader.cpp:81-85 | puts it back |
| Futures.FutureTable.InsertFuture | emulator/qtools/trace_reader.cpp:87-105 | links it in where the specification inserts it: before the first entry that is not earlier |
| Futures.FutureTable.AdvanceHead | emulator/qtools/trace_reader.cpp:196-209 | the first future is relinked at its next time, or freed after its last repetition |
| Futures.FutureTable.AddStarted | emulator/qtools/trace_reader.cpp:221-257 | a repeating record leaves one pending future, at its second execution |
| Futures.InsertAt | emulator/qtools/trace_reader.cpp:87-105 | the place the loop stops at is the place of insertion |
| Lookahead.TraceReaderBase.FindCurrentPid | emulator/qtools/trace_reader.cpp:1178-1201 | for times that do not go back, the pid of the last switch at or before the time, 0 if none |
| Lookahead.TraceReaderBase.FindNumInsns | emulator/qtools/trace_reader.cpp:1147-1176 | the instruction count of the first exception record for the event's ordinal, else the static count |
| Lookahead.LaterRecordsDoNotCount | emulator/qtools/trace_reader.cpp:1185-1200 | reading only as far as the first later switch loses nothing |
| Lookahead.LastSwitchSettled | emulator/qtools/trace_reader.cpp:1180-1184 | an answer stays right until the next switch |
| Lookahead.ExcsFound | emulator/qtools/trace_reader.cpp:1147-1176 | one record of lookahead finds the first record for the ordinal if there is one |
| Lookahead.PidReader.ReadPidEvent | emulator/qtools/trace_reader.cpp:440-445 | the times are the running sums of the differences in the file |
| Lookahead.ExcReader.ReadExc | emulator/qtools/trace_reader.cpp:387-411 | the record numbers likewise |
| BBReading.BBReader.DecodeNextRec | emulator/qtools/trace_reader.cpp:109-132 | reads exactly one record off the stream, or its end |
| BBReading.BBReader.ReadBB | emulator/qtools/trace_reader.cpp:161-259 | one call returns the next event of the merge with its pid and instruction count, and leaves the lists and the stream one step further |
| BBReading.BBReader.NextEvent | emulator/qtools/trace_reader_base.h:275-279 | counts the event first, so that its ordinal is right |
| BBReading.BBReader.ReadAll | emulator/qtools/trace_reader.cpp:161-259 | reading to the end gives the whole merged run, annotated; a truncated file ends in the error exit |
| BBReading.WholeRun | emulator/qtools/trace_reader.cpp:161-259 | such a run is in time order and is exactly the executions of the records |
| BBReading.ReadTrace | emulator/qtools/trace_reader.cpp:109-527 | from the bytes of the block, pid and exception files to the events: time order, exact multiset, pid and instruction count of each; the order discharges what the lookahead assumes |
| AddrMerge.MergeKeepsBoth | emulator/qtools/trace_reader_base.h:286-303 | the merged trace contains the loads and the stores, each in the order of its file, and nothing else |
| AddrMerge.MergeInOrder | emulator/qtools/trace_reader_base.h:286-303 | it is in time order if both files are |
| AddrMerge.AddrReader.ReadAddr | emulator/qtools/trace_reader.cpp:340-358 | adds the differences up; two zeros end the file |
| AddrMerge.AddrTrace.ReadAddr | emulator/qtools/trace_reader_base.h:286-303 | one call takes the first event of the merge |
| AddrMerge.AddrTrace.ReadAll | emulator/qtools/trace_reader_base.h:286-303 | reading to the end gives the merge of both files |
| Searching.Closest | emulator/qtools/trace_reader.h:1042-1110 | the binary search finds a greatest key at or below the address, or that there is none |
| Searching.ClosestIsUnique | emulator/qtools/trace_reader.h:1042-1110 | among strictly increasing keys there is only one answer |
| AddressMaps.ResortedCount | emulator/qtools/trace_reader.h:942-948 | sorting an array again keeps every region as often as it was |
| AddressMaps.ResortedInOrder | emulator/qtools/trace_reader.h:366-380 | and leaves it in order of start addresses |
| AddressMaps.TotalReplaced | emulator/qtools/trace_reader.h:919-949 | how the uses of a region over all arrays change with one array |
| AddressChanges.ReleasedWeight | emulator/qtools/trace_reader.h:899-907 | releasing a list of regions takes exactly their uses away and frees those left without any |
| AddressChanges.RetainedAt | emulator/qtools/trace_reader.h:1019-1022 | copying an array adds exactly its entries to the counts |
| AddressChanges.ShareSound | emulator/qtools/trace_reader.h:919-949 | adding a region in use to another array keeps the counts and the order |
| AddressChanges.AddNewSound | emulator/qtools/trace_reader.h:1259-1315 | so does adding a new region |
| AddressChanges.CopyKernelSound | emulator/qtools/trace_reader.h:875-890 | an address space gets each kernel region of process 0 once and nothing else |
| AddressChanges.ClearSound | emulator/qtools/trace_reader.h:893-916 | after exec the process manages itself and its array holds exactly the kernel's regions |
| AddressChanges.WithoutSound | emulator/qtools/trace_reader.h:968-987 | munmap of a whole region takes one entry out of one array and frees the region with its last use |
| AddressChanges.UnmapSuffix | emulator/qtools/trace_reader.h:993-1005 | munmap of a region's end shortens it in this address space and in no other |
| AddressChanges.UsedOnce | emulator/qtools/trace_reader.h:996-998 | a region with refs 0 is in one place only, so it may be truncated in place |
| AddressEvents.ForkSound | emulator/qtools/trace_reader.h:1009-1024 | a forked child sees what its parent sees; nobody's view changes |
| AddressEvents.CloneSound | emulator/qtools/trace_reader.h:1186-1207 | a cloned child shares its parent's address space |
| AddressEvents.MappedAdds | emulator/qtools/trace_reader.h:1259-1315 | mmap adds one entry, for the file's region, to the current address space |
| AddressEvents.MappedSoundIff | emulator/qtools/trace_reader.h:1259-1315 | mmap keeps the counts, whatever the memory of deleted regions holds, if and only if the hash table does not lead it to a deleted region |
| AddressEvents.MapExecMap | emulator/qtools/trace_reader.h:893-907 | the run that leads it there, for every file not predefined and every new process: map, exec, map |
| AddressEvents.ExecLeavesStaleEntry | emulator/qtools/trace_reader.h:893-907 | exec can delete a region and leave it in the hash table |
| AddressEvents.StepSound | emulator/qtools/trace_reader.h:1170-1359 | every event keeps refs + 1 equal to the uses and the arrays sorted, and leaves every address space alone but the current one; an exec leaves even that alone for those who still share it |
| AddressEvents.RunSound | emulator/qtools/trace_reader.h:1170-1359 | so does every run of events |
| AddressEvents.RegionStays | emulator/qtools/trace_reader.h:1170-1359 | a mapped region stays in an address space, with its fields, through every event but a munmap or exec there |
| AddressEvents.NothingLeaks | emulator/qtools/trace_reader.h:142-172 | when all arrays have been released, every region has been deleted |
| AddressReading.AddressReader.constructor | emulator/qtools/trace_reader.h:494-529 | process 0 starts with the three predefined regions, each used once |
| AddressReading.AddressReader.ReadKernelSymbols | emulator/qtools/trace_reader.h:532-546 | the kernel's region joins process 0 |
| AddressReading.AddressReader.CopyKernelRegion | emulator/qtools/trace_reader.h:875-890 | the loop computes the function the theorems are about |
| AddressReading.AddressReader.ClearRegions | emulator/qtools/trace_reader.h:893-916 | likewise |
| AddressReading.AddressReader.FindRegionIndex | emulator/qtools/trace_reader.h:1065-1087 | the region starting at the address, else the last below it, else the first |
| AddressReading.AddressReader.FindAndRemoveRegion | emulator/qtools/trace_reader.h:952-1006 | munmap changes the tables as specified, at the position the search finds |
| AddressReading.AddressReader.MapFile | emulator/qtools/trace_reader.h:1259-1315 | mmap shares the known region or adds a new one, and changes the tables as the theorems about mmap take it |
| AddressReading.AddressReader.HandlePidEvent | emulator/qtools/trace_reader.h:1170-1359 | each event keeps the invariant and touches no other address space; a pid that is too large exits |
| Lookup.HitAgrees | emulator/qtools/trace_reader.h:1121-1137 | in tidy regions and symbol tables a cache hit gives what both searches would, whatever lies behind the last symbol |
| Lookup.HitRightIff | emulator/qtools/trace_reader.h:1121-1137 | whether or not its region is still mapped, a hit is right if and only if the region now at the address has the same symbol array and finds the same symbol in it from its own base |
| Lookup.HitRightIffTable | emulator/qtools/trace_reader.h:1121-1137 | where the regions that share the array have one base: if and only if one of them is now at the address |
| Lookup.NoSymbolIff | emulator/qtools/trace_reader.h:1108-1114 | a lookup finds no function exactly before the first symbol of the region it picks |
| Lookup.LastAtMostIsClosest | emulator/qtools/trace_reader.h:1090-1115 | the reference definition of a search result: the last key at or below the address |
| Lookup.FunctionLookup.LookupFunction | emulator/qtools/trace_reader.h:1118-1167 | the native part: with a fresh cache the answer is the uncached one for the address space as it is now, and the cache stays fresh; it is left with a NULL pointer for the process exactly if the process is known and no function is found |
| Lookup.FunctionLookup.HandlePidEvent | emulator/qtools/trace_reader.h:1170-1359 | a pid event keeps the cache fresh unless it is a munmap or exec in that address space or puts a new process under the cached pid |
| SymbolTables.FreshOffsets | emulator/qtools/trace_reader.h:1292-1297 | offsets into a mapped file count from 0 exactly if it has at most two symbols or the second is at or above the start; else from the start, and those of the region's addresses lie within its length |
| SymbolTables.FreshResolves | emulator/qtools/trace_reader.h:1267-1297 | symbol j answers for exactly the addresses from its own, moved by the base, up to the next symbol's |
| SymbolTables.FreshShares | emulator/qtools/trace_reader.h:1276-1291 | a region has the symbols of an older one if and only if its path is known, and starts elsewhere than it is mapped only if it is not and cannot be read or is an ELF file mapped at 0 |
| SymbolTables.StepTables | emulator/qtools/trace_reader.h:1170-1359 | every event keeps one symbol array to a number, which the conditions on cache hits rely on |
| SymbolTables.Remapped | emulator/qtools/trace_reader.h:968-987 | unmapping a region that another process still uses and mapping an unknown file in its place keeps the counts and leaves the regions in order and apart |
| SymbolTables.StaleHit | emulator/qtools/trace_reader.h:1121-1137 | after that a cached symbol of the old region is still hit by the same lookup, and is not the answer |
| PidFollower.TraceReader.FindCurrentPid | emulator/qtools/trace_reader.h:1365-1381 | for times that do not go back, the address spaces are those that exactly the events up to the first later one make; it exits exactly if one of those has a pid that is too large; the lookup cache stays fresh if none of them outdates it |
| PidFollower.TraceReader.Resolve | emulator/qtools/trace_reader.h:1118-1381 | an address at a time is looked up in the address space that the pid running then has then |
| PidFollower.ChosenMore | emulator/qtools/trace_reader.h:1170-1359 | one more event is one more step, whatever its search finds |
| MethodLookup.MethodFinder.HandleRecord | emulator/qtools/trace_reader.h:1394-1469 | one record pushes or pops the method stack, or exits where it does not match |
| MethodLookup.MethodFinder.FindCurrentMethod | emulator/qtools/trace_reader.h:1478-1503 | for times that do not go back, the method on top of the stack that all records up to the first later one make; it exits exactly if one of those makes it exit |
| MethodLookup.UpToMore | emulator/qtools/trace_reader.h:1394-1469 | one more record handled keeps every process at the stack its records make |
| MethodLookup.NoExitBy | emulator/qtools/trace_reader.h:1394-1469 | when all records up to a time have been handled, none of them has made the code exit, for any process |
| MethodLookup.SymbolLookup.LookupFunction | emulator/qtools/trace_reader.h:1118-1167 | the whole lookup: the running method, with the native function as its interpreter, or else that function; without a function the method trace is left alone; it exits exactly if it is not and a due record makes it exit |
| HashTables.PutGet | emulator/qtools/hash_table.h:96-122 | Update changes what is found for its key and for no other, and keeps keys unique and in their chains |
| HashTables.DropGet | emulator/qtools/hash_table.h:125-147 | Remove makes its key absent and changes no other |
| HashTables.OnePlace | emulator/qtools/hash_table.h:96-122 | no entry is on two chains or twice on one |
| HashTables.FlattenOnce | emulator/qtools/hash_table.h:166-216 | the order of iteration names no entry twice |
| HashTables.FlattenHas | emulator/qtools/hash_table.h:166-216 | and every entry of every chain |
| Bits.MaskIsRemainder | emulator/qtools/hash_table.h:46-50 | masking with a power of two less one leaves the remainder, so every chain can be reached |
| HashTables.HashTable.constructor | emulator/qtools/hash_table.h:42-61 | an empty table whose size is the least suitable power of two |
| HashTables.HashTable.Update | emulator/qtools/hash_table.h:96-122 | the chains after it are those of map update |
| HashTables.HashTable.Remove | emulator/qtools/hash_table.h:125-147 | the chains after it are those of map removal, and the result says whether the key was there |
| HashTables.HashTable.Find | emulator/qtools/hash_table.h:150-163 | the value for the key, or the default |
| HashTables.HashTable.GetNext | emulator/qtools/hash_table.h:184-216 | moves to the first entry not yet visited; NULL after the last |
| HashTables.HashTable.VisitAll | emulator/qtools/hash_table.h:166-216 | GetFirst and GetNext meet every entry of every chain, none twice, before NULL |
| Framing.HexRoundTrip | emulator/qemud/qemud.c:160-205 | a number that fits the width is read back from its digits |
| Framing.HexReadsBack | emulator/qemud/qemud.c:160-205 | any number is read back modulo the width |
| Framing.Hex2Int | emulator/qemud/qemud.c:160-194 | the value of the digits, or -1 if one is malformed |
| Framing.Int2Hex | emulator/qemud/qemud.c:197-205 | the low digits of the value |
| Framing.FeedIsBlock | emulator/qemud/qemud.c:1099-1151 | consuming a block at a time is the same as consuming byte by byte |
| Framing.ChunkingIrrelevant | emulator/qemud/qemud.c:1090-1178 | how the input is cut into reads does not matter |
| Framing.FramingRoundTrip | emulator/qemud/qemud.c:1090-1178 | for payloads of 1 to 4000 bytes and channels 0 to 255 the parser recovers exactly the frames sent, in any chunking |
| Framing.WireAllDeclares | emulator/qemud/qemud.c:1103-1124 | a stream of frames that may be sent declares no length the receiver's buffer does not hold |
| Framing.MidStream | emulator/qemud/qemud.c:1090-1154 | anywhere in such a stream, what has been read delivers the first frames and what comes next is safe to read |
| PacketHeap.PacketMemory.Alloc | emulator/qemud/qemud.c:658-674 | a packet from the free list or a new one, on no other list |
| PacketHeap.PacketMemory.Free | emulator/qemud/qemud.c:677-685 | the packet joins the free list and nothing else changes |
| PacketHeap.QueueAppend | emulator/qemud/qemud.c:877-889 | linking through out_ptail appends to the queue and out_ptail addresses the new last next field |
| PacketHeap.WriteAccounted | emulator/qemud/qemud.c:926-946 | a partial write moves exactly its bytes from pending to written |
| PacketHeap.FDHandler.Enqueue | emulator/qemud/qemud.c:877-889 | the payload is added at the end of what is to be written; EPOLLOUT is wanted from then on |
| PacketHeap.FDHandler.WriteSome | emulator/qemud/qemud.c:926-946 | written then pending bytes stay everything enqueued; EPOLLOUT is wanted if and only if the queue is not empty |
| PacketHeap.FDHandler.Close | emulator/qemud/qemud.c:821-851 | exactly the queued packets go to the front of the free list, in reverse order |
| SerialPort.Serial.ReadBlocks | emulator/qemud/qemud.c:1090-1154 | the loop over one received packet posts exactly the frames the parser completes |
| SerialPort.Serial.FdReceive | emulator/qemud/qemud.c:1090-1154 | so does the callback, for declared lengths up to the maximum, skipping malformed headers |
| SerialPort.Serial.Send | emulator/qemud/qemud.c:1162-1178 | header and payload are queued back to back as the frame's bytes |
| SerialPort.FeedMore | emulator/qemud/qemud.c:1099-1151 | a further block continues the parse |
| SerialLine.SendingEnd.Write | emulator/qemud/qemud.c:926-946 | a write of any length takes the next bytes of what is pending |
| SerialLine.ReceivingEnd.Read | emulator/qemud/qemud.c:1090-1154 | a read posts packets that carry exactly the frames its bytes complete |
| SerialLine.Run | emulator/qemud/qemud.c:876-1178 | sends, partial writes and partial reads in any order: the frames received are always the first of those sent, and all of them once queue and line are empty |
| SerialLine.Transmit | emulator/qemud/qemud.c:1090-1178 | the same from two ports just set up |
| PacketWorld.World.Disjoint | emulator/qemud/qemud.c:657-685 | the free list, every handler's queue and the packet being received share no packet |
| PacketWorld.World.Accept | emulator/qemud/qemud.c:951-970 | a new connection gets a handler with an empty queue; all lists stay disjoint |
| PacketWorld.World.Close | emulator/qemud/qemud.c:821-851 | closing a handler frees its packets and disturbs nothing else |
| PacketWorld.World.ClientReadable | emulator/qemud/qemud.c:905-917 | a client's data is posted in a packet of its own; all lists stay disjoint |
| PacketWorld.World.Writable | emulator/qemud/qemud.c:894-945 | a handler's write disturbs no other handler |
| PacketWorld.World.SerialReadable | emulator/qemud/qemud.c:1090-1154 | receiving disturbs no handler's queue |
| EventLoop.AgreementUpdate | emulator/qemud/qemud.c:456-500 | changing one hook and its own registration keeps every descriptor's pointer on its hook |
| EventLoop.AgreementRemove | emulator/qemud/qemud.c:541-557 | so does moving the last hook into a closing one's place |
| EventLoop.LiveWithout | emulator/qemud/qemud.c:541-557 | which loses no hook that is not closing |
| EventLoop.AddAgreesIff | emulator/qemud/qemud.c:408-434 | adding a descriptor keeps the agreement if and only if no hook, live or closing, has it |
| EventLoop.Looper.Grow | emulator/qemud/qemud.c:383-405 | reallocation re-registers every hook's new address |
| EventLoop.Looper.Register | emulator/qemud/qemud.c:408-434 | adding a descriptor keeps the agreement |
| EventLoop.Looper.Mark | emulator/qemud/qemud.c:524-529 | exactly the hooks of the reported descriptors become pending, with the events reported |
| EventLoop.Looper.Dispatch | emulator/qemud/qemud.c:531-539 | each pending hook is called once, in order, whatever the callbacks do to the loop |
| EventLoop.Looper.Sweep | emulator/qemud/qemud.c:541-557 | exactly the hooks that are not closing remain |
| EventLoop.Survivors | emulator/qemud/qemud.c:541-557 | a hook is there after the sweep if and only if no callback deleted its descriptor |
| EventLoop.Looper.Round | emulator/qemud/qemud.c:504-559 | one round, whose callbacks add no descriptor that is still on a hook, calls what is owed, keeps exactly the hooks that no callback deletes, and restores the agreement |
| EventLoop.MarkedMeans | emulator/qemud/qemud.c:524-529 | a hook is called if and only if its descriptor was reported, with events reported for it |
| EventLoop.OwedOnce | emulator/qemud/qemud.c:531-539 | and only once |
| Multiplexing.SomeChannelFree | emulator/qemud/qemud.c:1547-1556 | with fewer clients than channels one channel is free |
| Multiplexing.FewClients | emulator/qemud/qemud.c:1547-1556 | so ClientReceive may ask for one |
| Multiplexing.FromClientSafe | emulator/qemud/qemud.c:1281-1321 | data from a client keeps channels distinct and in range, and registered clients on one |
| Multiplexing.ControlSafeIff | emulator/qemud/qemud.c:1434-1490 | a control message keeps that unless it accepts under malformed digits while a client has no channel |
| Multiplexing.MalformedReplyRegisters | emulator/qemud/qemud.c:1437-1451 | such a message registers a client without a channel |
| Multiplexing.DeliveredToOne | emulator/qemud/qemud.c:1493-1512 | a packet on a channel goes to the one client that has it, or to nobody |
| Multiplexing.AnswerFindsClient | emulator/qemud/qemud.c:1345-1369 | the answer to a connect message reaches exactly the client that asked |
| Multiplexing.Multiplexer.NextChannel | emulator/qemud/qemud.c:1547-1556 | the search ends when a channel is free, with the next free one after the last handed out |
| Multiplexing.Multiplexer.SerialReceive | emulator/qemud/qemud.c:1493-1512 | the callback does what the theorems are about and keeps the state safe for well-formed digits |
| Multiplexing.Multiplexer.ClientReceive | emulator/qemud/qemud.c:1281-1321 | forwards, drops the client, or asks for a channel (while one is free), and keeps the state safe |
| Multiplexing.Multiplexer.ClientClose | emulator/qemud/qemud.c:1326-1340 | tells the emulator about a positive channel and removes the client |
| CallStacks.LevelsStopAtBarrier | emulator/qtools/callstack.h:557-623 | neither search goes past the topmost barrier |
| CallStacks.PopRespectsBarrier | emulator/qtools/callstack.h:552-646 | a pass pops nothing below the topmost barrier, and that frame only if it returns to the block's address |
| CallStacks.PassRespectsBarrier | emulator/qtools/callstack.h:552-646 | the same of the stack a pass leaves |
| CallStacks.CallStack.PopPass | emulator/qtools/callstack.h:552-653 | the level a pass stops at, the barrier it respects, and the exception mark it clears |
| CallStacks.CallStack.DoPop | emulator/qtools/callstack.h:552-678 | a second pass is made exactly on leaving the kernel by what looks like a return of the saved user code, and never a third; what each pass leaves, and that each respects the topmost barrier it finds |
| CallStacks.CallStack.MakeRoom | emulator/qtools/callstack.h:399-473 | what is popped before a push and which return address the new frame gets: a vector-table frame passes its own on, leaving the kernel goes down to the frame that caused the exception |
| CallStacks.CallStack.PopKernelFrames | emulator/qtools/callstack.h:460-473 | pops at least one frame, stops at the topmost one below that caused an exception, and clears its mark |
| CallStacks.CallStack.DoPush | emulator/qtools/callstack.h:383-494 | the whole stack after a push; overflow exits exactly when it was full |
| CallStacks.CallStack.MethodPop | emulator/qtools/callstack.h:690-719 | pops through the topmost frame of the method that exits, or nothing |
| CallStacks.MethodTrace.CatchUp | emulator/qtools/callstack.h:729-734 | stops at the first record later than the event |
| CallStacks.CallStack.MethodAction | emulator/qtools/callstack.h:722-757 | applies the current record exactly when it is due and for this pid, and then moves on by one |
| CallStacks.CallStack.SimplePush | emulator/qtools/callstack.h:498-516 | one frame and one push callback at its level; overflow exits |
| CallStacks.CallStack.SimplePop | emulator/qtools/callstack.h:519-549 | one pop callback that matches the frame; the shadow stack agrees |
| CallStacks.CallStack.UpdateStack | emulator/qtools/callstack.h:161-230 | every block keeps the callbacks nested, the stack within bounds and equal to the shadow stack, and leaves it nonempty; it exits only with a full stack, and with native code exactly if the block is taken for a call and the stack is full or has no room at all |
| CallStacks.CallStack.PopAll | emulator/qtools/callstack.h:681-687 | every push so far has met its pop |
| CallStacks.FunctionStack.PopSymbol | emulator/qtools/q2dm.cpp:49-55 | the shadow stack is last in, first out |
| CallTrees.CodeBalances | emulator/qtools/callstack.h:161-646 | native code that calls and returns in the usual way, however deep, leaves the reconstructed stack exactly as it found it |
| CallTrees.PieceBalances | emulator/qtools/callstack.h:161-646 | so does each of its calls: the callee's frame goes on and comes off |
| CallTrees.CallPushes | emulator/qtools/callstack.h:383-494 | a call pushes one frame, which returns behind the calling block |
| CallTrees.ReturnPops | emulator/qtools/callstack.h:552-653 | a return there pops exactly that frame |
| CallTrees.CodeFits | emulator/qtools/callstack.h:161-516 | code that calls no deeper than there is room for never finds the stack full |
| CallTrees.RunPlain | emulator/qtools/callstack.h:161-230 | a run of native blocks does what the theorems are about, and exits exactly if one of its calls finds the stack full |
| CallTrees.BranchLinkCalls | emulator/qtools/callstack.h:246-380 | a branch-and-link into another user function is a call |
| CallTrees.ExchangeReturns | emulator/qtools/callstack.h:246-380 | a bx, or no branch at all, into the middle of another user function is a return |
| CallTrees.RunCode | emulator/qtools/callstack.h:161-230 | the theorem on the stack itself, block by block through updateStack: no exit, and the same stack |
| Q2dm.Session.Handle | emulator/qtools/q2dm.cpp:169-247 | the kernel's stack or the pid's gets the event, no other pid's stack sees a push or a pop, each stays in order, and an exit leaves one of them full |
| Q2dm.Session.Finish | emulator/qtools/q2dm.cpp:249-258 | every stack ends empty and balanced |
| Q2dm.Run | emulator/qtools/q2dm.cpp:60-258 | for any event stream whose pids differ from the kernel's id, however it ends, the "function mismatch" exit is never taken; either each thread's entries and exits are balanced at the end, or a stack is full |
| InnerBlocks.AssignInnerBlocks | emulator/qtools/bbprof.cpp:186-222 | the loop cuts each block as specified |
| InnerBlocks.NeighboursApart | emulator/qtools/bbprof.cpp:203-219 | neighbours do not overlap afterwards |
| InnerBlocks.CutsAreThreaded | emulator/qtools/bbprof.cpp:209-211 | inner pointers only lead to the next block, so chains are finite |
| InnerBlocks.ConservedIff | emulator/qtools/bbprof.cpp:203-219 | cutting loses no instruction along any chain if and only if every block that starts inside the one before has as many instructions as are left of it |
| InnerBlocks.InsnsConserved | emulator/qtools/bbprof.cpp:203-219 | for blocks of one mode that start at an instruction: if and only if such blocks share their ends |
| InnerBlocks.TimeEvent | emulator/qtools/bbprof.cpp:112-116 | which counters an event's instructions select, along the chain and in order |
| InnerBlocks.EveryInsnCounted | emulator/qtools/bbprof.cpp:112-127 | no executed instruction goes without a counter |
| InnerBlocks.SlotsDiffer | emulator/qtools/bbprof.cpp:112-127 | and no two share one |
| InnerBlocks.CountEvent | emulator/qtools/bbprof.cpp:105-110 | exactly the block and those of its chain are counted once |
| ProfileTimes.ChargesAt | emulator/qtools/bbprof.cpp:116-125 | the time from each instruction to the next is charged to the earlier one |
| ProfileTimes.TimeAdds | emulator/qtools/bbprof.cpp:116-125 | all charges together are the time of the last instruction: none is lost or counted twice |
| ProfileTimes.Profile.ChargeAll | emulator/qtools/bbprof.cpp:112-127 | every cycle and block counter holds, in 32 bits, exactly what was charged to it |
| ProfileTimes.Profile.ProfileEvent | emulator/qtools/bbprof.cpp:112-127 | one event's times: every cycle counter grows by what its own instructions take, and that of the last instruction before the event by the time up to it |
| ProfileTimes.EventShare | emulator/qtools/bbprof.cpp:112-127 | the counter of an instruction in the event's chain gets the time to the next one, and no counter outside the chain gets any |
| GtraceFile.BlockAt | emulator/qtools/gtrace.cpp:94-109 | block i starts at entry 1024 i, which is byte 8192 i, with the header numbered i, its pid and its records |
| GtraceFile.EntryReadsBack | emulator/qtools/gtrace.cpp:132-134 | a record's fields can be read back from its two words |
| GtraceFile.Gtrace.AddGtraceRecord | emulator/qtools/gtrace.cpp:111-137 | every record goes in the block of its pid, in order, and the entry count is the place in the block |
| GtraceFile.Gtrace.Close | emulator/qtools/gtrace.cpp:21-36 | the file becomes whole blocks, padded with zeros |
| GtraceFile.RecordAppended | emulator/qtools/gtrace.cpp:132-136 | one more entry is one more record of the last block |
| Mksdcard.TablesCoverData | emulator/mksdcard/mksdcard.c:80-110 | every supported size leaves a data area, and each table has an entry for every data cluster and the two reserved numbers |
| Mksdcard.FreeCountIff | emulator/mksdcard/mksdcard.c:157-162 | the free count is a cluster count exactly below 260 MiB |
| Mksdcard.VolumeWritten | emulator/mksdcard/mksdcard.c:286-316 | the sequence of writes puts boot sector, backup and tables where the boot sector says they are |
| Mksdcard.ImageFile.WriteEmpty | emulator/mksdcard/mksdcard.c:187-205 | chunked writing adds exactly the count of zero sectors |
| Mksdcard.MakeImage | emulator/mksdcard/mksdcard.c:255-318 | for every size from 9 MiB to the maximum exactly size / 512 sectors; other sizes are refused |

## Left out

- Files, sockets, epoll, clocks and threads as such: byte sequences, chunks, short writes and maps stand for them; opening failures and failed writes are not modelled.
- trace_common.h is not part of this model: the number of futures is a parameter, and the record types carry only the fields used here.
- The big-endian build of the decoder and the little-endian one are one class with two branches; words are loaded as eight bytes of the buffer.
- Reserved prefixes 0xfe and 0xff, and frames that declare more than MAX_PAYLOAD bytes, are excluded by preconditions.
- BBReading.ReadTrace: the numbers of the pid record types, which trace_common.h defines, are a parameter; pid and exception files that are cut short or go back in time are excluded by a precondition; paths and arguments are skipped over, because the lookahead does not use them.
- The stale futures of a trace whose times wrap around 64 bits, or that needs more futures than there are: excluded by preconditions.
- FDHandler: the event mask of its hook is a field of the handler here, and the lists of active and closing handlers, the accept handlers and the order in which they are freed are not modelled.
- EventLoop: a descriptor is not registered again before its closing hook is swept, which the methods require; callbacks are lists of loop operations.
- Multiplexer: clients are a sequence of records, newest first, and the packets are values; snprintf is the text it prints.
- CallStack: decoded opcodes are inputs; frame times and the skipped time of threads are left out, as only the trace output depends on them; symbols are values, with vm_sym kept in a table beside them.
- Q2dm: the kernel's id is no event's pid; the table of shadow stacks is filled when a stack is made and not at its first callback; the names and the output file are left out.
- AddressReader: loading symbols is an input (an ELF file's table, the dex list's, or that the file is unreadable); the capacity of region arrays and its growth, names, arguments and times of processes are left out; munmap is called with at least one region mapped.
- PidFollower: pid events reach it decoded and with their times, and every event finds what it needs; the times of processes are left out.
- Lookup.FunctionLookup.LookupFunction: a lookup after one that left a NULL pointer is excluded by a precondition, because the code would follow the pointer.
- MethodFinder: a method's address resolves to the same symbol throughout a run, and finding it does not change which region the cached symbol points to.
- AssignInnerBlocks: the order qsort produces is an input, a sorted permutation.
- HashTable: the entry count, which the code does not keep right on Remove, and the deletion of strings are left out.
- Gtrace: file and procedure numbers are within the 16 and 12 bits the first header declares; the name file is left out.
- ImageFile: the boot and info sectors are records of the fields that describe the layout; the date-based serial number, the label and failed writes are left out.
- ARM and Thumb disassembly, ELF and dex parsing, option parsing, demangling and the dump tools are plumbing around the parts modelled here.
- sensors, properties and GPS: easy or bound to libraries.
