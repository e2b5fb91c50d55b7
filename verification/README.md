# Verified models of a BPF loader, its packet programs and its kernel support code

The repository vendors libbpf, an older BPF loader, a DDoS filter with its control plane,
traffic accounting, and the intrusive lists all of them use. This project models seven of
their components and proves what they are for:

* **Linking** (`BpfIsa`, `Linker`, `LinkerFiles`, `LinkerMeaning`). Relocation records are
  collected, each program is patched in place and the text section is appended to it once; from
  the records of a file to the arrays, stated on opcodes, symbols and offsets. Against a
  small-step semantics of eBPF (section 4.3.2 of RFC 9669 for calls, section 5.4 for map
  loads), parametric in what ordinary instructions do, the linked array simulates the two
  separate sections step for step.
* **The perf ring reader** (`PerfRing`, `PerfRingRuns`). Records of varying size, split where
  the ring wraps, counters that wrap at 2^64, callbacks that may stop. Over every run nothing
  is lost, repeated or reordered.
* **Intrusive lists** (`List`, `Hlist`). Heap nodes whose links refine sequences: add, delete,
  replace, move, rotate, splice, cut, and the lists with back-pointers to links.
* **BTF** (`Btf`, `BtfTypes`, `BtfCodec`, `BtfResolve`, `BtfSizes`). The growing id table, a parser
  that undoes an encoder of types built field by field, and the size resolver over possibly cyclic
  type graphs, from the bytes to the recursive size.
* **Traffic accounting** (`NetdUpdate`, `NetdAccounting`, `NetdVerdicts`, `NetdConservation`,
  `NetdTags`, `NetdInterleaving`, `NetdInterleavedTags`). Which packets pass and which entries they
  move, by rules and by the bytes of their headers. The lock-free find, insert, find, add
  protocol under every interleaving; conservation between app counters and the two switchable
  maps, and tags bounded by their tag-0 entry, both packet by packet and for whole calls that
  interleave step by step.
* **The packet filter** (`XdpFilter`, `XdpFrames`, `XdpVerdicts`, `XdpCounters`, `PortControl`,
  `PortEdits`). A byte-level parser with a round trip, also for frames cut off anywhere, drop
  counters and how far they reconcile with verdicts, and edits of the blacklists from user space.
* **Netlink attributes, map loading, descriptors** (`Nlattr`, `NlattrStreams`; `MapLoader`,
  `MapFiles`, `MapPatching`; `FdLifecycle`, `FdObject`). A parser over arbitrary streams; two loaders that
  read the same table and patch the same instructions; and a balance of file descriptors over
  every session of open, load, unload and close.

`Wrappers`, `Bytes`, `Counters64` and `MapSums` hold what several modules share. Code that
changes things in place is modelled by methods over arrays, classes and map fields, each
proved against a function or predicate; what the code is for is proved about those.

`dafny verify dfyconfig.toml` checks the whole project.

## What the proofs show beside the expected

* Linking copies the text as it stands. A caller in front of the text section gets a copy whose
  map loads are not relocated; `LinkerMeaning.LinkedRightIff` says exactly when that matters.
* The value of a call's symbol is collected and never used, so only calls through a symbol at the
  start of the text section go where the symbol says (`LinkerMeaning.CallReachesSymbolIff`).
* A completely full ring looks empty to the loop of the ring reader: no record is delivered and
  the answer is an error although nothing is wrong (`PerfRing.NothingGivenIff`, with the instance
  `PerfRing.FullRingLooksEmpty`).
* After a refused `malloc` the ring reader leaves the length of the freed scratch buffer in
  place, so that a later call may write through a null pointer. `PerfRing.ReadSimple` and
  `PerfRing.RefusedIff` say exactly when; `PerfRing.RefusedMemoryBreaksScratch` is an instance.
* The filter increments the 64-bit drop counters of ports through 32-bit pointers. They wrap at
  2^32, and from then on the drops by cause disagree with the drop verdicts
  (`XdpCounters.DropsReconcileIff`, `PortControl.FourBillionFramesUnbalance`); modulo 2^32 the two
  always agree (`XdpCounters.DropsReconcile`).
* The comment on `list_cut_position` says that a cut at the head moves nothing, and leaves open
  what becomes of the destination. It is emptied, except for an empty source and for an entry that
  is not in a one-entry list, where it is left untouched (`List.ListCutPosition`).
* The test for alignment to four bytes in the BTF header masks only bit 0x02; nothing here
  relies on aligned sections.
* `blacklist_port_modify` goes on after a refused lookup with an empty mask, so that an edit for
  one protocol can wipe the other's bit while all exit codes say success
  (`PortControl.RefusedLookupOpensPort`, `PortControl.ShowsLatestIff`).
* `nla_ok` compares the remainder as an unsigned number first. On a stream that is not padded,
  the remainder turns negative and a length field behind the stream is read before the loop
  ends, unless an attribute is refused before (`NlattrStreams.LooksBehindIff`,
  `NlattrStreams.OverstepsIff`).
* The assertion of the older loader admits one map more than its table holds: with 33 maps of
  which one is the last symbol of all, the last in offset order is written behind the table
  (`MapLoader.LoadElfMapsSection`, `MapLoader.OneTooManyIff`, `MapLoader.ThirtyThreeMaps`).
* A reader of the traffic maps may see tags ahead of their tag-0 entry while calls are under way,
  by no more than those calls still owe it (`NetdInterleavedTags.TagsNeverExceedWhatIsDue`,
  `NetdInterleavedTags.HalfwayTheTagsLead`).
* `compare_bpf_map` narrows a difference of offsets to int; it is an order exactly below 2^31
  (`MapLoader.NarrowingOrdersIff`).
* `bpf_object__elf_finish` does nothing without an ELF handle, so the descriptor of a file that
  libelf refuses is never closed; and every BTF section overwrites the pointer to the BTF of the
  one before. These are the only leaks (`FdObject.NothingLeaksIff`).

## Model

| member | source | states |
|---|---|---|
| LinkerMeaning.ObjectLinkingPreservesMeaning | src/xdp_example/ddos/tools/lib/bpf/libbpf.c:1227-1245 | A program of an object relocated as a whole runs on the array it is given exactly as the two sections run before linking, for any number of steps, any instruction semantics and any data, if the text section stands before it, or it makes no relocated call, or the text needs no relocation; also in objects without a text section |
| LinkerMeaning.LinkingPreservesMeaning | src/xdp_example/ddos/tools/lib/bpf/libbpf.c:1147-1224 | The same for one main section and one text section, and such a program never faults |
| LinkerMeaning.LinkedRunSimulates | src/xdp_example/ddos/tools/lib/bpf/libbpf.c:1147-1224 | Every run of the two sections that does not fault is, step for step, a run of the linked array, even if control could leave a section elsewhere |
| LinkerMeaning.StepSimulates | src/xdp_example/ddos/tools/lib/bpf/libbpf.c:1147-1224 | One step before linking is one step of the linked array, for relocated calls, relocated loads and all other instructions |
| LinkerMeaning.RelocatedCallSimulates | src/xdp_example/ddos/tools/lib/bpf/libbpf.c:1164-1187 | A relocated call, which before linking enters the text section one behind its immediate, lands on that text instruction at its new address and returns behind the call |
| LinkerMeaning.RelocatedLoadDecodes | src/xdp_example/ddos/tools/lib/bpf/libbpf.c:1199-1212 | A relocated 64-bit load yields the map its record names |
| LinkerMeaning.PlainDecodes | src/xdp_example/ddos/tools/lib/bpf/libbpf.c:1190-1224 | An instruction without a record keeps its meaning, although calls elsewhere were rebased and text was appended |
| LinkerMeaning.InstructionAt | src/xdp_example/ddos/tools/lib/bpf/libbpf.c:1164-1187 | Every instruction stands, patched, at its section's address in the linked array; text starts right behind the main code and occurs once |
| LinkerMeaning.StepStaysInside | src/xdp_example/ddos/tools/lib/bpf/libbpf.c:1147-1224 | The static condition on programs (jumps and successors inside the section) keeps every step from faulting |
| LinkerMeaning.LinkedRightIff | src/xdp_example/ddos/tools/lib/bpf/libbpf.c:1227-1245 | The array a program is given is the relocated code and the relocated text exactly if the text section stands before the program, or the program makes no relocated call, or every load of the text already carries its map |
| LinkerMeaning.NothingToPatchIff | src/xdp_example/ddos/tools/lib/bpf/libbpf.c:1199-1212 | Relocating the text changes nothing exactly if its loads carry their maps |
| LinkerMeaning.TextBehindCallerLosesItsMaps | src/xdp_example/ddos/tools/lib/bpf/libbpf.c:1227-1245 | A caller in front of the text section: a concrete object whose map load is lost by linking |
| LinkerMeaning.CallReachesSymbolIff | src/xdp_example/ddos/tools/lib/bpf/libbpf.c:977-987 | The value of a call's symbol is stored and never used: the linked call reaches the instruction counted from the symbol exactly if the symbol stands at the section's first instruction |
| LinkerMeaning.SecondFunctionIsMissed | src/xdp_example/ddos/tools/lib/bpf/libbpf.c:977-987 | A call through the symbol of the second function reaches the first |
| BpfIsa.Simulates | src/xdp_example/ddos/tools/lib/bpf/libbpf.c:1147-1224 | Simulation of machines in general: matching single steps give matching runs |
| Linker.CollectReloc | src/xdp_example/ddos/tools/lib/bpf/libbpf.c:924-1015 | Succeeds exactly if every record and its symbol can be read, the symbol lies in the maps or the text section, and the record stands at a pseudo call, or at a 64-bit load with a map at the symbol's value; the table then gives, record by record, the call with its symbol's value or the load with the first map there; the first record that is not so decides the error; without memory there is no table |
| Linker.ClassifyIff | src/xdp_example/ddos/tools/lib/bpf/libbpf.c:941-1010 | How one record is understood, in terms of opcodes, symbols and offsets |
| LinkerFiles.LinkFile | src/xdp_example/ddos/tools/lib/bpf/libbpf.c:1227-1281 | From the relocation sections of a file to the linked arrays: it succeeds exactly if every section is for a program, every record is understood, there is memory for the tables, and every program with a record at a call finds a text section that makes no such call; the arrays are those that linking prescribes for tables that describe the records |
| LinkerFiles.CollectObject | src/xdp_example/ddos/tools/lib/bpf/libbpf.c:1247-1281 | Every program ends with a table for the records of the last section that is for it |
| LinkerFiles.OneRecordPatches | src/xdp_example/ddos/tools/lib/bpf/libbpf.c:1147-1224 | In the linked array an instruction with one record is the call with its immediate raised to where the text now stands, or the load with pseudo source and the descriptor of the first map at its symbol's value |
| LinkerFiles.NoRecordKeeps | src/xdp_example/ddos/tools/lib/bpf/libbpf.c:1190-1224 | An instruction without a record is unchanged there |
| LinkerFiles.CallIsLinked | src/xdp_example/ddos/tools/lib/bpf/libbpf.c:924-1281 | A program of one call and one exit, its one record, and a text section of one exit, taken through collecting and relocating: a call with immediate 1 and two exits |
| Linker.FirstAt | src/xdp_example/ddos/tools/lib/bpf/libbpf.c:989-1008 | The first map at an offset, and no map before it |
| Linker.FindMap | src/xdp_example/ddos/tools/lib/bpf/libbpf.c:989-1008 | The search loop finds the first map at the symbol's value, or none |
| Linker.InitProgram | src/xdp_example/ddos/tools/lib/bpf/libbpf.c:321-357 | A section without one whole instruction is refused, so a program always has instructions |
| Linker.FindProgByIdx | src/xdp_example/ddos/tools/lib/bpf/libbpf.c:910-922 | The first program with the section index, or none |
| Linker.Position | src/xdp_example/ddos/tools/lib/bpf/libbpf.c:910-922 | Position of the first program with a section index, no earlier one having it |
| Linker.RelocText | src/xdp_example/ddos/tools/lib/bpf/libbpf.c:1147-1188 | When a call is relocated and when it is refused; the text is appended at the first call only, and only the one instruction changes otherwise |
| Linker.Relocate | src/xdp_example/ddos/tools/lib/bpf/libbpf.c:1190-1224 | A program's final array is its instructions, each patched by all its records in order, followed by one copy of the text if it has any relocated call; the record table is freed |
| Linker.RelocateObject | src/xdp_example/ddos/tools/lib/bpf/libbpf.c:1227-1245 | Relocating all programs in order gives each the array that linking prescribes, with text copied as it stood at that moment |
| Linker.TextIsFinal | src/xdp_example/ddos/tools/lib/bpf/libbpf.c:1227-1245 | Text that precedes its callers is copied relocated |
| Linker.LinkOneMore | src/xdp_example/ddos/tools/lib/bpf/libbpf.c:1198-1219 | One more record changes one instruction and appends the text at most once, however many calls precede it |
| Linker.LastCounts | src/xdp_example/ddos/tools/lib/bpf/libbpf.c:1198-1219 | Where no call is relocated twice, only the last record of an instruction counts |
| PerfRing.ReadSimple | src/xdp_example/ddos/tools/lib/bpf/libbpf.c:2269-2327 | One call, with memory or without: what is handed over, the answer, the stored tail and the length of the scratch buffer; with memory these are exactly the pending records, in order and byte for byte, up to the one the callback stops at; the scratch buffer is valid afterwards exactly if no needed growth was refused or its length was 0 |
| PerfRing.Scan | src/xdp_example/ddos/tools/lib/bpf/libbpf.c:2289-2321 | The loop follows the records round the ring until the offsets meet, the callback stops or memory is refused, and ends |
| PerfRing.Turn | src/xdp_example/ddos/tools/lib/bpf/libbpf.c:2290-2320 | One turn of it, with all three ways out |
| PerfRing.RefusedIff | src/xdp_example/ddos/tools/lib/bpf/libbpf.c:2293-2304 | Memory is refused exactly if there is none and some record both wraps and is longer than the scratch buffer, all callbacks before it having asked for more |
| PerfRing.WrapTest | src/xdp_example/ddos/tools/lib/bpf/libbpf.c:2293-2314 | The test of the source asks whether the record crosses the end of the ring, which by WrapsOnce one record of a call does at most |
| PerfRing.RefusedMemoryBreaksScratch | src/xdp_example/ddos/tools/lib/bpf/libbpf.c:2296-2304 | A ring and a call after which the scratch buffer is gone and its length is not |
| PerfRing.NothingGivenIff | src/xdp_example/ddos/tools/lib/bpf/libbpf.c:2286-2304 | In rings of every size: with data in the ring, nothing is handed over exactly if the ring is completely full, which is answered with an error, or the first record needs memory that is not there |
| PerfRing.FullRingLooksEmpty | src/xdp_example/ddos/tools/lib/bpf/libbpf.c:2286-2289 | A ring filled by one record, which is not handed over; the answer is an error |
| PerfRing.TakeRecord | src/xdp_example/ddos/tools/lib/bpf/libbpf.c:2292-2315 | The record at the cursor, whether whole, ending at the end of the ring or split, is the record of the stream, and the cursor moves behind it |
| PerfRing.Reassemble | src/xdp_example/ddos/tools/lib/bpf/libbpf.c:2293-2309 | A split record is put together in the scratch buffer, which grows if need be; if it cannot, the buffer is gone and its length stays |
| PerfRing.Memcpy | src/xdp_example/ddos/tools/lib/bpf/libbpf.c:2306-2307 | Copies exactly the range and leaves the rest of the buffer |
| PerfRing.FirstRecord | src/xdp_example/ddos/tools/lib/bpf/libbpf.c:2289-2315 | The pending stream is the record at the cursor, in one or two pieces, followed by the rest |
| PerfRing.FirstRecordFits | src/xdp_example/ddos/tools/lib/bpf/libbpf.c:2292-2293 | A header never wraps, so its size field is read in place |
| PerfRing.Layout | src/xdp_example/ddos/tools/lib/bpf/libbpf.c:2286-2315 | The ring offsets of all pending records and of the head; no record starts at the head's offset, so the loop's inequality test cannot stop early |
| PerfRing.LayoutOf | src/xdp_example/ddos/tools/lib/bpf/libbpf.c:2275-2287 | With counters wrapped at 2^64 the cursor starts at the tail's offset and the layout leads to the head's; nothing is seen of a completely full ring |
| PerfRing.ConcatRecords | src/xdp_example/ddos/tools/lib/bpf/libbpf.c:2289-2321 | The records of a stream spell it |
| PerfRing.RecordsAppend | src/xdp_example/ddos/tools/lib/bpf/libbpf.c:2289-2321 | A record appended to the stream is appended to its records |
| PerfRing.RecordsDrop | src/xdp_example/ddos/tools/lib/bpf/libbpf.c:2320-2324 | Moving the tail over some records leaves the others |
| PerfRingRuns.AcceptedThenPendingIsProduced | src/xdp_example/ddos/tools/lib/bpf/libbpf.c:2269-2327 | Over every run of appends and calls with any callbacks and any refused memory, accepted records followed by pending ones are the produced ones: none lost, repeated or out of order |
| PerfRingRuns.HandedIsPrefixOfProduced | src/xdp_example/ddos/tools/lib/bpf/libbpf.c:2269-2327 | With callbacks that always continue, what is handed over is always a prefix of what was produced |
| PerfRingRuns.RunKeepsInv | src/xdp_example/ddos/tools/lib/bpf/libbpf.c:2269-2327 | The ring holds exactly the produced records not yet accepted, at every state |
| PerfRingRuns.ReadKeepsInv | src/xdp_example/ddos/tools/lib/bpf/libbpf.c:2269-2327 | A call with any callback, with memory or without, keeps that |
| PerfRingRuns.AppendKeepsInv | src/xdp_example/ddos/tools/lib/bpf/libbpf.c:2275-2287 | An append by the kernel keeps that, through wrap of ring and counters |
| PerfRingRuns.WriteExtends | src/xdp_example/ddos/tools/lib/bpf/libbpf.c:2286-2309 | Bytes written behind the head lengthen the stream and disturb nothing in it |
| PerfRingRuns.RecordedIsRecord | src/xdp_example/ddos/tools/lib/bpf/libbpf.c:2290-2293 | An event written with type, flags, size and padded body is one record for the reader |
| List.InitListHead | src/xdp_example/ddos/tools/include/linux/list.h:25-29 | The list is empty |
| List.ListAdd | src/xdp_example/ddos/tools/include/linux/list.h:61-64 | The new entry is the first |
| List.ListAddTail | src/xdp_example/ddos/tools/include/linux/list.h:75-78 | The new entry is the last |
| List.ListDelEntry | src/xdp_example/ddos/tools/include/linux/list.h:100-103 | The ring closes over the entry, which keeps its own pointers |
| List.ListDel | src/xdp_example/ddos/tools/include/linux/list.h:105-110 | The entry is gone from the sequence, its pointers poisoned |
| List.ListDelInit | src/xdp_example/ddos/tools/include/linux/list.h:143-147 | The entry is gone and a list of its own |
| List.ListReplace | src/xdp_example/ddos/tools/include/linux/list.h:123-130 | The new node takes the old one's place in the ring, be it entry or head, also when it is alone |
| List.ListReplaceInit | src/xdp_example/ddos/tools/include/linux/list.h:132-137 | The same, and the old node becomes an empty list |
| List.ListMove | src/xdp_example/ddos/tools/include/linux/list.h:154-158 | Within a list the entry becomes the first, order otherwise kept |
| List.ListMoveTail | src/xdp_example/ddos/tools/include/linux/list.h:165-170 | Within a list the entry becomes the last, order otherwise kept |
| List.ListMoveAcross | src/xdp_example/ddos/tools/include/linux/list.h:154-158 | From one list to another: gone from the first, front of the second |
| List.ListMoveTailAcross | src/xdp_example/ddos/tools/include/linux/list.h:165-170 | From one list to another: gone from the first, end of the second |
| List.ListDelApart | src/xdp_example/ddos/tools/include/linux/list.h:100-103 | Deleting leaves every ring the entry is not in as it was |
| List.ListAddApart | src/xdp_example/ddos/tools/include/linux/list.h:61-64 | Adding leaves every other ring as it was |
| List.ListAddTailApart | src/xdp_example/ddos/tools/include/linux/list.h:75-78 | So does adding at the end |
| List.ListRotateLeft | src/xdp_example/ddos/tools/include/linux/list.h:215-223 | The first entry becomes the last; an empty list stays empty |
| List.ListSplice | src/xdp_example/ddos/tools/include/linux/list.h:293-298 | Concatenation in front |
| List.ListSpliceTail | src/xdp_example/ddos/tools/include/linux/list.h:305-310 | Concatenation behind |
| List.ListSpliceInit | src/xdp_example/ddos/tools/include/linux/list.h:319-327 | Concatenation in front, the source left empty |
| List.ListSpliceTailInit | src/xdp_example/ddos/tools/include/linux/list.h:336-344 | Concatenation behind, the source left empty |
| List.ListCutPosition | src/xdp_example/ddos/tools/include/linux/list.h:260-272 | The sequence is split just behind the entry; cutting at the head leaves an empty first part; an empty list, or an entry that is not in a one-entry list, leaves the destination untouched |
| List.CutThenSplice | src/xdp_example/ddos/tools/include/linux/list.h:260-298 | Cutting anywhere, also at the head or in a list of one entry or none, and splicing back restores every pointer of every node; the destination has to be an empty list only where the cut leaves it untouched |
| List.ListDelRange | src/xdp_example/ddos/tools/include/linux/list.h:757-762 | The entries from begin to end leave the list |
| List.ListEmpty | src/xdp_example/ddos/tools/include/linux/list.h:187-190 | True exactly for the empty sequence |
| List.ListIsSingular | src/xdp_example/ddos/tools/include/linux/list.h:229-232 | True exactly for one entry |
| List.ListIsLast | src/xdp_example/ddos/tools/include/linux/list.h:177-181 | True exactly for the last entry |
| List.ListForEach | src/xdp_example/ddos/tools/include/linux/list.h:408-409 | The cursor meets every entry once, in order |
| List.Rotate | src/xdp_example/ddos/tools/include/linux/list.h:25-29 | A ring may be read from any of its nodes |
| List.RingToStretches | src/xdp_example/ddos/tools/include/linux/list.h:38-46 | Around any cut, a ring is two stretches that point at each other |
| List.StretchesToRing | src/xdp_example/ddos/tools/include/linux/list.h:274-286 | Two such stretches make a ring again |
| Hlist.HlistUnlink | src/xdp_example/ddos/tools/include/linux/list.h:614-622 | In constant time and without the head, the node is bypassed and the successor's pprev designates the link that led to the node |
| Hlist.HlistDel | src/xdp_example/ddos/tools/include/linux/list.h:624-629 | The node is gone from the sequence, its pointers poisoned |
| Hlist.HlistDelInit | src/xdp_example/ddos/tools/include/linux/list.h:631-637 | The same for a node on a list; a node on no list is left alone |
| Hlist.HlistAddHead | src/xdp_example/ddos/tools/include/linux/list.h:639-647 | The new node is the first |
| Hlist.HlistAddBefore | src/xdp_example/ddos/tools/include/linux/list.h:650-657 | The new node comes right before the given one |
| Hlist.HlistAddBehind | src/xdp_example/ddos/tools/include/linux/list.h:659-668 | The new node comes right behind the given one |
| Hlist.HlistMoveList | src/xdp_example/ddos/tools/include/linux/list.h:685-692 | The whole sequence changes heads and the source is empty |
| Hlist.HlistAddFake | src/xdp_example/ddos/tools/include/linux/list.h:671-674 | The node's pprev designates its own next |
| Hlist.HlistDelFake | src/xdp_example/ddos/tools/include/linux/list.h:624-629 | Deleting a fake node leaves it on no list and writes to no other node but one that it points at |
| Hlist.FakeThenDel | src/xdp_example/ddos/tools/include/linux/list.h:670-674 | A node on no list can be made a fake and deleted, and nothing else is written |
| Hlist.Bypass | src/xdp_example/ddos/tools/include/linux/list.h:614-622 | Exactly the two writes of an unlinking, wherever the back pointer leads |
| Hlist.HlistEmpty | src/xdp_example/ddos/tools/include/linux/list.h:609-612 | True exactly for the empty sequence |
| Hlist.HlistForEach | src/xdp_example/ddos/tools/include/linux/list.h:696-697 | The cursor meets every node once, in order |
| Hlist.Split | src/xdp_example/ddos/tools/include/linux/list.h:614-622 | A chain is a front and a rest that meet at one link |
| Hlist.Between | src/xdp_example/ddos/tools/include/linux/list.h:639-668 | A node linked in between a front and a rest makes a chain one longer |
| Btf.TypeTable.Add | src/xdp_example/ddos/tools/lib/bpf/btf.c:43-69 | E2BIG exactly with 65534 types; on success one more id behind all earlier ones, which keep their types, id 0 being void; on failure nothing changes; size bounds and the bound of 6 times the size on slots copied are kept |
| Btf.TypeTable.Grow | src/xdp_example/ddos/tools/lib/bpf/btf.c:45-64 | Growing keeps all ids and the copying bound |
| Btf.TypeById | src/xdp_example/ddos/tools/lib/bpf/btf.c:192-198 | The type of an id, NULL beyond the last |
| Btf.ParseTypeSec | src/xdp_example/ddos/tools/lib/bpf/btf.c:144-190 | Every record up to the first unknown kind, and no more than fit, gets the next id in order, unless a growth is refused while the table is full; the error says which stopped it, and in every case the ids are those of the records before |
| Btf.ParseOne | src/xdp_example/ddos/tools/lib/bpf/btf.c:151-187 | One turn: the next record is added and the cursor moves behind it, or parsing has ended |
| Btf.AddRecord | src/xdp_example/ddos/tools/lib/bpf/btf.c:152-187 | One turn: an unknown kind is refused before anything is added, a full table after |
| Btf.SkipRecord | src/xdp_example/ddos/tools/lib/bpf/btf.c:156-182 | The cursor moves behind the record and what its kind and vlen call for |
| Btf.Cursors | src/xdp_example/ddos/tools/lib/bpf/btf.c:151-187 | The places the cursor passes are the record starts; where it stops is the end or an unknown kind |
| BtfCodec.ParseUndoesEncode | src/xdp_example/ddos/tools/lib/bpf/btf.c:144-198 | Parsing up to 65534 types built field by field (ints, arrays, members, enum values and all other kinds with their own words, the count being that of the members or values) succeeds and gives the i-th type id i, at the place where its bytes begin, id 0 being void |
| BtfCodec.TailIsSkipped | src/xdp_example/ddos/tools/lib/bpf/btf.c:156-182 | For a type of every kind, what the parser steps over behind the header is exactly what the fields take |
| BtfTypes.WordBack | src/xdp_example/ddos/kernel-usr-include/linux/btf.h:31-50 | Four bytes, low byte first, give back the word |
| BtfCodec.ScanEncoded | src/xdp_example/ddos/tools/lib/bpf/btf.c:144-190 | Whatever stands behind an encoded list, exactly its records are found |
| BtfCodec.UnknownKindIsRefused | src/xdp_example/ddos/tools/lib/bpf/btf.c:178-181 | The first record of an unknown kind gives EINVAL after all before it were added |
| BtfCodec.ReadBack | src/xdp_example/ddos/tools/lib/bpf/btf.c:152-157 | Kind and count are read back from the info word, whatever its unused bits |
| BtfCodec.StartsGrow | src/xdp_example/ddos/tools/lib/bpf/btf.c:151-156 | Each turn moves the cursor by one record header at least |
| BtfResolve.ResolveSize | src/xdp_example/ddos/tools/lib/bpf/btf.c:227-270 | The loop over a parsed table computes the bounded walk over the records in memory |
| BtfSizes.SizeOfEncoded | src/xdp_example/ddos/tools/lib/bpf/btf.c:144-270 | Parsing types built field by field and resolving any id: success exactly if a sized type is among the first 32 of the chain and no product of element counts leaves 32 bits, and then the recursive size over the list of types (own size, 8 for pointers, the size behind modifiers, elements times the element type of arrays); E2BIG exactly for a product that is too large, EINVAL for void, forward declarations, ids out of range and chains without end |
| BtfSizes.RecordIsSeen | src/xdp_example/ddos/kernel-usr-include/linux/btf.h:31-111 | The resolver takes from the bytes of a type its size, the type behind it, or the element type and count of an array, and not its index type |
| BtfSizes.WalkFails | src/xdp_example/ddos/tools/lib/bpf/btf.c:236-269 | Which of the two errors ends a failed walk |
| BtfSizes.SampleSizes | src/xdp_example/ddos/tools/lib/bpf/btf.c:227-270 | One of every kind: an array of 3 structs of 100 bytes indexed by an int of 4 has 300 bytes, and the ids that have no size |
| BtfResolve.ResolveWithin | src/xdp_example/ddos/tools/lib/bpf/btf.c:236-269 | The same over any graph and any depth |
| BtfResolve.ResolvesExactly | src/xdp_example/ddos/tools/lib/bpf/btf.c:225-270 | Success exactly if a sized type is among the first 32 types of the chain and no intermediate product leaves 32 bits; the result is then the exact size, in 0 to 2^32-1 |
| BtfResolve.WalkIsScaledSize | src/xdp_example/ddos/tools/lib/bpf/btf.c:236-269 | The running product of the loop is the recursive size scaled by the elements so far |
| BtfResolve.Multiply | src/xdp_example/ddos/tools/lib/bpf/btf.c:251-253 | The guarded multiplication refuses exactly the products that do not fit 32 bits |
| BtfResolve.Overflow | src/xdp_example/ddos/tools/lib/bpf/btf.c:251-267 | The guard by division is true exactly when the product overflows |
| BtfResolve.CyclesAreErrors | src/xdp_example/ddos/tools/lib/bpf/btf.c:236-263 | A chain that runs into a cycle always ends in an error |
| BtfResolve.CycleGoesOn | src/xdp_example/ddos/tools/lib/bpf/btf.c:236-263 | On a cycle one can hop on for ever |
| BtfResolve.SizeNeedsAnEnd | src/xdp_example/ddos/tools/lib/bpf/btf.c:236-263 | A size needs a chain that ends within reach |
| NetdUpdate.EntryShowsWhatWasAdded | notes/wyx/netd.h:139-157 | At every state of every interleaving of any number of CPUs, the entry shows its first value plus all completed additions, modulo 2^64 |
| NetdUpdate.NoUpdateIsLost | notes/wyx/netd.h:139-157 | With room in the map, once all CPUs are done every call has been counted |
| NetdUpdate.InsertRaceNeverResets | notes/wyx/netd.h:143-147 | No step of any CPU resets or removes an entry: the loser of the insert race finds the winner's |
| NetdUpdate.NothingIsGivenUp | notes/wyx/netd.h:143-148 | With room, no CPU that tried to insert fails to find an entry |
| NetdUpdate.RunKeepsInv | notes/wyx/netd.h:139-157 | Entry, additions and what each CPU still owes stay in balance over every interleaving |
| NetdUpdate.StepBalances | notes/wyx/netd.h:139-157 | A step changes the books by what its CPU owes less |
| NetdUpdate.SoloCall | notes/wyx/netd.h:139-157 | A call nobody interferes with is one atomic update |
| NetdAccounting.TrafficMaps.TrafficAccount | notes/wyx/netd.h:233-266 | The verdict is the owner match, the maps change as the packet's charge demands, and a dropped egress packet changes no counter |
| NetdVerdicts.DroppedIff | notes/wyx/netd.h:205-224 | A packet is dropped exactly if neither its bytes nor a system uid exempt it and an enabled rule is against its uid |
| NetdVerdicts.SystemAlwaysPasses | notes/wyx/netd.h:207-207 | System uids always pass |
| NetdVerdicts.WithoutRulesAllPass | notes/wyx/netd.h:208-211 | Without an enabled rule everything passes |
| NetdVerdicts.DefaultDecides | notes/wyx/netd.h:196-204 | Without a configuration entry the default rules are the enabled ones |
| NetdVerdicts.DozableDropsOthers | notes/wyx/netd.h:214-216 | DOZABLE alone drops exactly the uids that do not have the bit |
| NetdVerdicts.StandbyDropsItsOwn | notes/wyx/netd.h:217-219 | STANDBY alone drops exactly the uids that have it |
| NetdVerdicts.PowersaveDropsOthers | notes/wyx/netd.h:220-222 | POWERSAVE alone drops exactly the uids that do not |
| NetdVerdicts.RulesAddUp | notes/wyx/netd.h:214-223 | Rules enabled together drop what any of them drops |
| NetdVerdicts.OtherRulesDoNothing | notes/wyx/netd.h:214-223 | Bits of the configuration that are no rule drop nothing |
| NetdVerdicts.StandbyNeverHelps | notes/wyx/netd.h:217-219 | Giving any uid the STANDBY bit never turns a drop into a pass, whatever is enabled |
| NetdVerdicts.ExemptionsNeverHurt | notes/wyx/netd.h:214-222 | Giving any uid DOZABLE or POWERSAVE never turns a pass into a drop |
| NetdVerdicts.OthersAreUnaffected | notes/wyx/netd.h:212-213 | The bits of one uid change nothing for another |
| NetdVerdicts.Ip4Exempt | notes/wyx/netd.h:158-177 | An IPv4 packet built field by field, with options or without, is exempt exactly if it is ESP, or TCP with the flags there and RST set |
| NetdVerdicts.Ip6Exempt | notes/wyx/netd.h:178-193 | An IPv6 packet likewise |
| NetdVerdicts.SegmentExemptIff | notes/wyx/netd.h:158-206 | A packet of either version that carries a TCP segment is exempt exactly if the segment has RST, and then passes whatever the rules |
| NetdVerdicts.EspAlwaysPasses | notes/wyx/netd.h:158-206 | A packet of either version that carries ESP always passes |
| NetdVerdicts.OthersAreJudged | notes/wyx/netd.h:158-195 | Other protocols, and segments cut off before their flags, are never exempt |
| NetdVerdicts.CountedMoves | notes/wyx/netd.h:239-265 | A counted packet moves, in the selected map, the entries of tag and of tag 0 of the uid its cookie names, or of tag 0 of its socket's uid, under that uid's counter set and the packet's interface; and that uid's app counter; and no other entry of any map |
| NetdVerdicts.UncountedMoveNothing | notes/wyx/netd.h:233-256 | Dropped egress packets, and all while no map is selected, move nothing |
| NetdVerdicts.EntryMoves | notes/wyx/netd.h:139-157 | An entry grows by one packet and its length in the packet's direction, modulo 2^64; a new one starts from zero, if there is room |
| NetdAccounting.TrafficMaps.UpdateStatsWithConfig | notes/wyx/netd.h:225-232 | Only the selected map is written |
| NetdAccounting.UpdateStats | notes/wyx/netd.h:139-157 | One update of one map, with and without room |
| NetdConservation.TrafficIsConserved | notes/wyx/netd.h:233-266 | From empty maps, over any packets and any switches between A and B that cannot fill the maps, each uid's app counter equals its tag-0 entries summed over both maps, all counter sets and interfaces, modulo 2^64 |
| NetdConservation.RunConservesIff | notes/wyx/netd.h:233-266 | For any configuration and however full the maps, the books balance throughout a run exactly if each packet is written to both its tag-0 entry and its app entry, or to neither |
| NetdConservation.RunConserves | notes/wyx/netd.h:233-266 | The balance is kept over any run with room from any balanced state |
| NetdConservation.PacketConservesIff | notes/wyx/netd.h:259-264 | One packet keeps the balance exactly if it is not counted or is written on both sides or neither |
| NetdConservation.FullMapUnbalances | notes/wyx/netd.h:259-264 | Two users and a map with room for one: the second packet is counted for the app only |
| NetdConservation.ChargeShiftsSums | notes/wyx/netd.h:259-263 | A charge moves the tag-0 sum over both maps by the packet once, not twice, whether tagged or not |
| NetdInterleaving.InterleavedTrafficIsConserved | notes/wyx/netd.h:233-266 | Any number of CPUs account for any packets at once, step by step, with any switches between A and B in between: while inserting finds room, once all are at rest the app counter and the tag-0 sums over both maps have each grown by exactly what all calls brought the uid, modulo 2^64, and so balance |
| NetdInterleaving.EachSideIsExact | notes/wyx/netd.h:233-266 | At every state of every such interleaving, full maps and unknown selectors included: counters, what the CPUs have still to add, what was given up and 2^64 for every wrap are exactly what was there at first and what all calls bring; for an app, for its tag-0 entries over both maps, for any single entry, and for all tags of a key |
| NetdInterleaving.EachSideIsAccounted | notes/wyx/netd.h:233-266 | As 64-bit counters they agree, however many wraps there were |
| NetdInterleaving.SelectedRestConservesIff | notes/wyx/netd.h:225-266 | If every selector names a map, the books balance at rest exactly if both sides gave up the same, modulo 2^64 |
| NetdInterleaving.RestConservesIff | notes/wyx/netd.h:225-266 | The same for any selectors: exactly if what each side was brought and did not give up agrees |
| NetdInterleaving.RunSettles | notes/wyx/netd.h:139-157 | Every run keeps each of these accounts exactly, wraps counted |
| NetdInterleaving.AfterSettles | notes/wyx/netd.h:139-157 | What one step adds to an entry, wraps away or gives up, its CPU owes no longer; no other counter moves |
| NetdInterleaving.StepAdds | notes/wyx/netd.h:149-155 | An atomic addition shows on the entry, but for whole wraps |
| NetdInterleaving.RunKeepsKernelInv | notes/wyx/netd.h:142-148 | A CPU with an entry in its hands finds it in the map; with room, nothing is given up |
| NetdInterleaving.TargetsAreEven | notes/wyx/netd.h:251-264 | A call with a known selector brings its packet to both sides once, tagged or not |
| NetdInterleaving.CallAlone | notes/wyx/netd.h:233-266 | A call with no other in between is the charge of one packet, however full the maps are |
| NetdInterleavedTags.InterleavedTagsNeverExceedTagZero | notes/wyx/netd.h:259-263 | However any number of calls interleave: while inserting finds room and no tag-0 entry wraps, whenever all CPUs are at rest all tags of a key together show no more than its tag-0 entry, in both maps |
| NetdInterleavedTags.TagsNeverExceedWhatIsDue | notes/wyx/netd.h:259-263 | At every state on the way: no more than the tag-0 entry together with what the calls under way have still to add to it |
| NetdInterleavedTags.TagsAreCovered | notes/wyx/netd.h:142-155 | The same with full maps and wraps, what both gave up and 2^64 for each wrap of the tag-0 entry being counted in |
| NetdInterleavedTags.WrapsIff | notes/wyx/netd.h:149-155 | With room, a run that has come to rest has wrapped an entry exactly if its first value and all it was brought exceed 64 bits |
| NetdInterleavedTags.TargetsCoverTags | notes/wyx/netd.h:259-263 | A call brings a tag-0 entry all it brings to the tags of that entry |
| NetdInterleavedTags.HalfwayTheTagsLead | notes/wyx/netd.h:259-263 | Between its two updates a call leaves a tag that shows more than its tag-0 entry |
| NetdInterleavedTags.WrappedEntryFallsBehind | notes/wyx/netd.h:149-155 | A tag-0 entry that wraps falls behind its tags |
| NetdTags.TagsNeverExceedTagZero | notes/wyx/netd.h:259-263 | Over any run whose tag-0 writes find room and do not wrap, all tags of a key together never show more than its tag-0 entry |
| NetdTags.PacketKeepsBound | notes/wyx/netd.h:233-266 | One packet keeps that bound |
| NetdTags.ChargeKeepsBound | notes/wyx/netd.h:259-263 | So does one charge on one map, although the tagged write may find no room |
| XdpFilter.ParseEth | src/xdp_example/ddos/xdp_ddos01_blacklist_kern.c:126-168 | Succeeds exactly if the frame reaches layer 3 behind at most two tags; every byte read lies inside the frame |
| XdpFilter.Filter.XdpProgram | src/xdp_example/ddos/xdp_ddos01_blacklist_kern.c:270-290 | Verdict and counters are those of the parsed frame; all other counters stay |
| XdpFilter.Filter.ParseIpv4 | src/xdp_example/ddos/xdp_ddos01_blacklist_kern.c:223-251 | A blacklisted source is dropped and counted before the ports are looked at |
| XdpFilter.Filter.ParsePort | src/xdp_example/ddos/xdp_ddos01_blacklist_kern.c:170-221 | The verdict and the one drop counter, by protocol and port, of which only the low 32 bits are incremented; reads stay inside the frame |
| XdpFilter.Filter.StatsActionVerdict | src/xdp_example/ddos/xdp_ddos01_blacklist_kern.c:109-120 | One verdict counter of this CPU grows by one |
| XdpFrames.ParseUndoesEncode | src/xdp_example/ddos/xdp_ddos01_blacklist_kern.c:126-251 | Parsing a frame built from 0 to 2 tags, a five-word IPv4 header and a TCP, UDP or other payload gives back its source, protocol and port |
| XdpFrames.VerdictIsDecision | src/xdp_example/ddos/xdp_ddos01_blacklist_kern.c:126-251 | The verdict on such a frame is the decision on source address, protocol and destination port, and depends on nothing else |
| XdpFrames.TagsBack | src/xdp_example/ddos/xdp_ddos01_blacklist_kern.c:144-163 | At most two tags are skipped, to the type behind them, in frames cut off anywhere |
| XdpFrames.ParseCut | src/xdp_example/ddos/xdp_ddos01_blacklist_kern.c:126-251 | What the parser makes of the first n bytes of a built frame, for every n |
| XdpVerdicts.FilterCut | src/xdp_example/ddos/xdp_ddos01_blacklist_kern.c:109-290 | The number of the verdict on the first n bytes of a built frame, by addresses, protocol numbers, mask bits and n alone; and every counter of every map: one verdict counter of this CPU, the counter of a blacklisted source, and that of a blocked port for its protocol |
| XdpVerdicts.CutFrameCounts | src/xdp_example/ddos/xdp_ddos01_blacklist_kern.c:109-290 | These counters move, by one modulo 2^64 or in their low 32 bits, and no other |
| XdpVerdicts.ForeignFramePasses | src/xdp_example/ddos/xdp_ddos01_blacklist_kern.c:126-290 | Frames of other types pass, with up to two tags; they are counted as passed unless the first type is a length |
| XdpCounters.DropsReconcile | src/xdp_example/ddos/xdp_ddos01_blacklist_kern.c:109-120 | Over any multi-CPU run without deletions, however many port counters wrap, drops by cause equal drop verdicts modulo 2^32 |
| XdpCounters.DropsReconcileIff | src/xdp_example/ddos/xdp_ddos01_blacklist_kern.c:206-217 | They do so modulo 2^64 exactly if the number of port counters that wrapped is a multiple of 2^32 |
| XdpCounters.FourBillionDropsUnbalance | src/xdp_example/ddos/xdp_ddos01_blacklist_kern.c:206-217 | 2^32 equal frames dropped for their port on one CPU put level accounts out of balance |
| XdpCounters.EqualFramesWrapOnce | src/xdp_example/ddos/xdp_ddos01_blacklist_kern.c:206-217 | Equal frames wrap their counter when its 32 bits are used up, and not before |
| XdpCounters.VerdictsCountParsedFrames | src/xdp_example/ddos/xdp_ddos01_blacklist_kern.c:270-290 | Over any such run the verdict counters grow by the number of frames that passed the Ethernet parser |
| XdpCounters.FrameReconcilesIff | src/xdp_example/ddos/xdp_ddos01_blacklist_kern.c:170-290 | One frame keeps level accounts level exactly if it wraps no port counter |
| XdpCounters.FrameFallsBehind | src/xdp_example/ddos/xdp_ddos01_blacklist_kern.c:170-290 | One frame moves both accounts alike, but for 2^32 when it wraps a port counter |
| XdpCounters.FrameIsCounted | src/xdp_example/ddos/xdp_ddos01_blacklist_kern.c:270-290 | One frame adds one verdict, or none if it was not parsed |
| XdpCounters.RunFallsBehind | src/xdp_example/ddos/xdp_ddos01_blacklist_kern.c:170-290 | Over any run the causes fall behind by 2^32 for every counter that wraps |
| XdpCounters.CountDropAdds | src/xdp_example/ddos/xdp_ddos01_blacklist_kern.c:209-218 | The causes grow by one exactly for a drop, and lose 2^32 when a port counter wraps |
| XdpCounters.DeletingAddressReconcilesIff | src/xdp_example/ddos/xdp_ddos01_blacklist_common.h:90-91 | Deleting an address keeps the accounts level exactly if it had dropped nothing, modulo 2^64 |
| XdpCounters.ClearingPortReconcilesIff | src/xdp_example/ddos/xdp_ddos01_blacklist_common.h:183-186 | Clearing a port's counter keeps them level under the same condition |
| PortControl.BlacklistPortModify | src/xdp_example/ddos/xdp_ddos01_blacklist_common.h:116-202 | The maps and the exit code after any call: invalid actions, protocols and ports, refused system calls, and the counter cleared by a deletion |
| PortControl.EditPort | src/xdp_example/ddos/xdp_ddos01_blacklist_common.h:152-168 | One bit changes in the mask of every CPU; a refused lookup reads as an empty mask and the write goes on |
| PortControl.EditValues | src/xdp_example/ddos/xdp_ddos01_blacklist_common.h:158-166 | The loops over the CPUs' copies |
| PortControl.BlacklistModify | src/xdp_example/ddos/xdp_ddos01_blacklist_common.h:67-114 | The blacklist and the exit code after any call; an address already listed is a success that keeps its counters |
| PortControl.BlockedIff | src/xdp_example/ddos/xdp_ddos01_blacklist_common.h:116-202 | After any history of edits and frames, on any CPU, the bit of a port is set exactly if its latest edit was ADD and was not lost to a refused lookup of an edit for the other protocol |
| PortControl.ShowsLatestIff | src/xdp_example/ddos/xdp_ddos01_blacklist_common.h:152-168 | The mask shows the latest edits exactly if none was so lost |
| PortControl.CpusAgree | src/xdp_example/ddos/xdp_ddos01_blacklist_common.h:158-168 | All CPUs hold the same mask of every port, whatever was refused |
| PortControl.VerdictFollowsEdits | src/xdp_example/ddos/xdp_ddos01_blacklist_kern.c:206-251 | With lookups that were not refused, the verdict on any parsed frame follows from the history of edits alone, on every CPU |
| PortControl.ListedIff | src/xdp_example/ddos/xdp_ddos01_blacklist_common.h:88-109 | An address is blacklisted exactly if its latest accepted edit was ADD |
| PortControl.RefusedLookupOpensPort | src/xdp_example/ddos/xdp_ddos01_blacklist_common.h:152-168 | A history of two successful ADDs that leaves the first port open |
| PortControl.EditIsSeen | src/xdp_example/ddos/xdp_ddos01_blacklist_common.h:152-168 | One edit sets or clears its own bit and leaves the other protocol's, but for a refused lookup |
| PortControl.PortEditReconcilesIff | src/xdp_example/ddos/xdp_ddos01_blacklist_common.h:183-196 | A port edit keeps the drop accounts level exactly if it forgets no drops, modulo 2^64 |
| PortControl.LevelIffNothingMissed | src/xdp_example/ddos/xdp_ddos01_blacklist_common.h:67-202 | After any history of edits and frames on any CPUs, drops by cause and drop verdicts agree modulo 2^64 exactly if all forgotten drops and 2^32 for every wrapped port counter sum to a multiple of 2^64 |
| PortControl.AlwaysLevelIff | src/xdp_example/ddos/xdp_ddos01_blacklist_common.h:67-202 | They agree at all times exactly if no accepted deletion ever forgets drops, modulo 2^64, and no frame wraps the counter of its port |
| PortControl.DeletionUnbalances | src/xdp_example/ddos/xdp_ddos01_blacklist_common.h:88-109 | An address is added, drops a frame and is deleted: the accounts part |
| PortControl.FourBillionFramesUnbalance | src/xdp_example/ddos/xdp_ddos01_blacklist_kern.c:206-217 | From empty maps, port 80 is added and 2^32 frames arrive: the accounts part |
| PortControl.HappeningReconcilesIff | src/xdp_example/ddos/xdp_ddos01_blacklist_common.h:67-202 | One frame or edit keeps the accounts level exactly if it forgets no drops, modulo 2^64, and wraps no port counter |
| PortControl.AddingTwiceKeepsDrops | src/xdp_example/ddos/xdp_ddos01_blacklist_common.h:88-106 | Adding an address twice succeeds twice and resets no counter |
| PortEdits.EditThenFilter | src/xdp_example/ddos/xdp_ddos01_blacklist_common.h:116-202 | After a port call the frames whose protocol number and destination port it names are dropped or passed as it says, unless their source is blacklisted, and all others get the verdict they had |
| PortEdits.PortCallMoves | src/xdp_example/ddos/xdp_ddos01_blacklist_common.h:116-202 | Every mask and every counter after a port call, by protocol number, port, action and refusals |
| PortEdits.PortExitIff | src/xdp_example/ddos/xdp_ddos01_blacklist_common.h:116-202 | When the exit code reports a bad option, a bad port, or success |
| PortEdits.AddressCallIs | src/xdp_example/ddos/xdp_ddos01_blacklist_common.h:67-114 | An address call with another exit code changes nothing; with success, and unless the kernel refused it as an existing key, the address is listed exactly after ADD; no other address is touched, and a new one starts with zero drops |
| Nlattr.NlaParse | src/xdp_example/ddos/tools/lib/bpf/nlattr.c:117-147 | Ends on every stream; returns 0 exactly if no attribute is refused; the index holds the last attribute of each type among those before the first refused one; a byte behind the stream is read exactly if none is refused and the iteration steps over the end, or the length is negative |
| Nlattr.NlaOk | src/xdp_example/ddos/tools/lib/bpf/nlattr.c:42-47 | True exactly if a whole attribute stands at the cursor; with a negative remainder the length field is still read |
| Nlattr.NlaNext | src/xdp_example/ddos/tools/lib/bpf/nlattr.c:34-40 | The cursor moves over the padded attribute and the remainder by as much |
| Nlattr.ValidateNla | src/xdp_example/ddos/tools/lib/bpf/nlattr.c:59-92 | Refuses exactly the attributes of known type that do not meet their policy, reading none but their own bytes |
| Nlattr.Turn | src/xdp_example/ddos/tools/lib/bpf/nlattr.c:125-142 | One turn stores or refuses one attribute, and the remainder falls |
| Nlattr.Admit | src/xdp_example/ddos/tools/lib/bpf/nlattr.c:126-141 | The index changes for the attribute's type only |
| NlattrStreams.LastOfIsLast | src/xdp_example/ddos/tools/lib/bpf/nlattr.c:137-141 | An index entry is the place of the last attribute of its type |
| NlattrStreams.NoneIfAbsent | src/xdp_example/ddos/tools/lib/bpf/nlattr.c:123-141 | It is null exactly if there is none |
| NlattrStreams.AllTakenIff | src/xdp_example/ddos/tools/lib/bpf/nlattr.c:125-135 | Parsing succeeds exactly if every attribute of known type meets its policy |
| NlattrStreams.TakenEndsAtFirstRefused | src/xdp_example/ddos/tools/lib/bpf/nlattr.c:125-135 | A failed parse has indexed exactly the attributes before the first refused one |
| NlattrStreams.AttributesLieInside | src/xdp_example/ddos/tools/lib/bpf/nlattr.c:42-47 | Every attribute found lies inside the stream |
| NlattrStreams.AttributesFollow | src/xdp_example/ddos/tools/lib/bpf/nlattr.c:34-40 | Each starts at the next multiple of four behind the one before |
| NlattrStreams.OverstepsIff | src/xdp_example/ddos/tools/lib/bpf/nlattr.c:34-47 | Some stream of a given length makes the iterator step over its end exactly if the length is at least five and no multiple of four |
| NlattrStreams.LooksBehindIff | src/xdp_example/ddos/tools/lib/bpf/nlattr.c:117-147 | Per stream and policy: a byte behind the stream is read exactly if the iteration steps over the end and every attribute of known type meets its policy |
| NlattrStreams.PaddedNeedsNoMore | src/xdp_example/ddos/tools/lib/bpf/nlattr.c:34-47 | A stream padded to four bytes is parsed without a look behind it, whatever the policy |
| NlattrStreams.FiveBytesAreOverstepped | src/xdp_example/ddos/tools/lib/bpf/nlattr.c:34-47 | Five bytes behind which the iterator reads a length field, unless a policy refuses the attribute |
| NlattrStreams.WalkUndoesEncode | src/xdp_example/ddos/tools/lib/bpf/nlattr.c:117-147 | Encoded attributes are found again, each in its place, wherever the encoding stands in a stream |
| NlattrStreams.EncodedIsWalked | src/xdp_example/ddos/tools/lib/bpf/nlattr.c:117-147 | An encoding is parsed with no byte behind it, to the attributes sent, flag bits of the type gone |
| NlattrStreams.EncodedIsTakenIff | src/xdp_example/ddos/tools/lib/bpf/nlattr.c:125-135 | It parses without error exactly if every attribute sent with a known type meets its policy |
| NlattrStreams.StringsEnd | src/xdp_example/ddos/tools/lib/bpf/nlattr.c:85-89 | A string attribute that meets its policy contains its terminator |
| NlattrStreams.BarePolicies | src/xdp_example/ddos/tools/lib/bpf/nlattr.c:20-27 | Without bounds of its own a policy asks for 1, 2, 4 or 8 bytes for the integer kinds, a terminated string for strings, and nothing for the others |
| NlattrStreams.BoundsIff | src/xdp_example/ddos/tools/lib/bpf/nlattr.c:59-92 | A minimum replaces the width of the kind, a maximum comes on top, and kinds above the last have neither |
| MapLoader.InitMaps | src/xdp_example/ddos/tools/lib/bpf/libbpf.c:620-755 | Succeeds exactly if the section divides evenly and each definition lies inside and says no more than a record holds; the table is then a rearrangement of the records, sorted if the narrowed comparison follows the offsets |
| MapLoader.SmallSectionsAreSorted | src/xdp_example/ddos/tools/lib/bpf/libbpf.c:612-618 | It does so in every section of at most 2^31 bytes |
| MapLoader.FillMap | src/xdp_example/ddos/tools/lib/bpf/libbpf.c:703-750 | One record, or its refusal |
| MapFiles.InitWritten | src/xdp_example/ddos/tools/lib/bpf/libbpf.c:620-755 | Any number of definitions, written one behind the other in records of any size that hold what they say and named by symbols among any others, are the table that is read |
| MapFiles.WrittenComesBack | src/xdp_example/ddos/tools/lib/bpf/libbpf.c:649-755 | Such a section is accepted, and its entries are the definitions |
| MapFiles.AcceptsIff | src/xdp_example/ddos/tools/lib/bpf/libbpf.c:649-755 | A section is accepted exactly if it names no map, or the records have one positive size that fills it exactly and each lies inside and is zero behind its first 20 bytes |
| MapFiles.AcceptableIff | src/xdp_example/ddos/tools/lib/bpf/libbpf.c:720-750 | One definition is acceptable to a loader with records of any length exactly if it ends inside the section and is zero behind them |
| MapFiles.EntriesStand | src/xdp_example/ddos/bpf_load.c:423-457 | An entry has its symbol's offset and name, the bytes that stand there, and zeros for those that do not |
| MapFiles.ShareFills | src/xdp_example/ddos/bpf_load.c:404-404 | The older loader takes definitions to be as long as whole bytes allow |
| MapLoader.LoadElfMapsSection | src/xdp_example/ddos/bpf_load.c:354-460 | The older loader, for any number of maps: EFBIG exactly if a definition says more than its larger record holds, otherwise the sorted table, also of definitions that end behind the section; a division by zero without maps; the assertion fails exactly if a symbol is looked at after 33 maps; with 33 maps that pass it, the table is overrun exactly if the 32 of lowest offset are acceptable |
| MapLoader.OneTooManyIff | src/xdp_example/ddos/bpf_load.c:380-389 | A section with more maps than the table holds passes the assertion exactly if it has 33 and the last symbol of the symbol table is one of them; up to 32 always pass |
| MapLoader.CollectSymbols | src/xdp_example/ddos/bpf_load.c:380-389 | The symbols of the section in file order, or the failed assertion |
| MapLoader.CopyMaps | src/xdp_example/ddos/bpf_load.c:423-457 | The definitions in order; EFBIG at the first of the first 32 that says too much, and an overrun at the 33rd |
| MapLoader.ThirtyThreeMaps | src/xdp_example/ddos/bpf_load.c:380-443 | 33 maps that end the symbol table: the last is written behind the table of 32 |
| MapLoader.CopyDefinition | src/xdp_example/ddos/tools/lib/bpf/libbpf.c:727-750 | A definition is copied, zero-extended or truncated, and refused exactly for a non-zero byte behind the known ones |
| MapLoader.AcceptedIff | src/xdp_example/ddos/tools/lib/bpf/libbpf.c:727-750 | A definition is accepted exactly if some record, resized to its length, is that definition |
| MapLoader.DefinedComesBack | src/xdp_example/ddos/tools/lib/bpf/libbpf.c:727-750 | A stored record, zero-extended or truncated back, gives the original bytes |
| MapLoader.RecordComesBack | src/xdp_example/ddos/bpf_load.c:442-455 | A record written with any length that holds all it says is read back |
| MapLoader.SmallerRecordIff | src/xdp_example/ddos/bpf_load.c:404-455 | What a loader with a smaller record accepts, in terms of the larger one |
| MapLoader.NarrowingOrdersIff | src/xdp_example/ddos/tools/lib/bpf/libbpf.c:612-618 | The comparison by a difference narrowed to int orders all offsets below n exactly if n is at most 2^31 |
| MapLoader.Qsort | src/xdp_example/ddos/bpf_load.c:392-392 | A rearrangement, sorted whenever the comparison follows a key |
| MapLoader.SortingIsUnique | src/xdp_example/ddos/bpf_load.c:391-392 | With distinct keys there is one sorted rearrangement |
| MapLoader.SortedKeys | src/xdp_example/ddos/bpf_load.c:391-392 | All sorted orders have the same keys, place by place, so that the order of equal offsets changes no outcome |
| MapLoader.CopiedAlike | src/xdp_example/ddos/bpf_load.c:391-456 | Sorting the symbols and then copying gives what copying and then sorting gives |
| MapPatching.TableIgnoresOrder | src/xdp_example/ddos/tools/lib/bpf/libbpf.c:690-755 | For distinct offsets the table does not depend on the order of the symbols |
| MapPatching.AcceptanceIgnoresOrder | src/xdp_example/ddos/tools/lib/bpf/libbpf.c:649-755 | Nor does acceptance |
| MapPatching.LoadersAgree | src/xdp_example/ddos/bpf_load.c:354-460 | What libbpf accepts the older loader accepts too, with the same table, each record zero-extended |
| MapPatching.ParseReloAndApply | src/xdp_example/ddos/bpf_load.c:294-339 | Returns 0 exactly if every record applies, and then the instructions are those of two-phase linking; on 1, those of the records before the first that does not, a load without a map being marked |
| MapPatching.BothLoaders | src/xdp_example/ddos/bpf_load.c:294-339 | Both loaders on the same instructions and the same records of maps or text that are no calls: they succeed alike and end with the same instructions, also if a load has several records |
| MapPatching.TwoPhases | src/xdp_example/ddos/tools/lib/bpf/libbpf.c:924-1015 | Collecting and then relocating succeeds exactly if every record applies, and then gives the instructions the one pass gives |
| MapPatching.OnePassIsTwoPhases | src/xdp_example/ddos/tools/lib/bpf/libbpf.c:924-1015 | The one pass applies exactly the records that the first of the two phases understands, and understands them alike |
| MapPatching.OtherSectionsDiffer | src/xdp_example/ddos/bpf_load.c:294-339 | The one pass also applies records of symbols in other sections, exactly those that two phases refuse |
| MapPatching.PatchStep | src/xdp_example/ddos/bpf_load.c:302-336 | One more record changes one instruction, also if it was patched before |
| FdObject.Session | src/xdp_example/ddos/tools/lib/bpf/libbpf.c:1493-1595 | Open, any operations in any order with failures anywhere, close: the process keeps exactly the descriptors it had, and those the script leaks |
| FdObject.NothingLeaksIff | src/xdp_example/ddos/tools/lib/bpf/libbpf.c:498-555 | Nothing leaks exactly if the ELF library does not refuse a file that could be opened, and no BTF section follows one the kernel took |
| FdObject.LeakExamples | src/xdp_example/ddos/tools/lib/bpf/libbpf.c:498-555 | Two openings that leak one descriptor each |
| FdObject.NothingLostIff | src/xdp_example/ddos/tools/lib/bpf/libbpf.c:832-839 | Overwriting the BTF pointer loses a descriptor exactly then |
| FdObject.Open | src/xdp_example/ddos/tools/lib/bpf/libbpf.c:1493-1523 | Opening succeeds exactly if the file is accepted, no code or other section fails, the maps section is good and what is left is in order; the object then holds a program for every code section, in file order, marked if it is the text, the number of maps, and the BTF; in any case all slots are free and what is lost is accounted for |
| FdObject.OpenAndLoad | src/xdp_example/ddos/tools/lib/bpf/libbpf.c:1493-1595 | Opening and loading succeeds exactly if the file is in order and the kernel grants every map, with BTF or at the second call without, and every code section but the text; then every map and each of these programs has a descriptor |
| FdObject.BpfObject.CreateMaps | src/xdp_example/ddos/tools/lib/bpf/libbpf.c:1089-1145 | All maps get a descriptor, or none keeps one; all do exactly if each is granted at the first call, or at the second if the first one named BTF |
| FdObject.BpfObject.LoadProgram | src/xdp_example/ddos/tools/lib/bpf/libbpf.c:1282-1350 | A new descriptor, or the error that log, size, type and the probe call for; a descriptor got by probing another type is closed again |
| FdObject.BpfObject.LoadInstances | src/xdp_example/ddos/tools/lib/bpf/libbpf.c:1352-1433 | When a program can be loaded, with its own slot or with those of its preprocessor, and that every slot then has a descriptor but those of skipped instances |
| FdObject.BpfObject.LoadProgs | src/xdp_example/ddos/tools/lib/bpf/libbpf.c:1435-1451 | Succeeds exactly if every program but the text can be loaded; these are loaded then, and the text is left as it was |
| FdObject.BpfObject.Load | src/xdp_example/ddos/tools/lib/bpf/libbpf.c:1572-1595 | A second load changes nothing; the first succeeds exactly if all maps are granted, the programs are relocated and each can be loaded, and then fills all map slots and loads all programs but the text; failure leaves every slot free |
| FdObject.BpfObject.Unload | src/xdp_example/ddos/tools/lib/bpf/libbpf.c:1556-1570 | Every slot of maps and programs is closed once and free |
| FdObject.BpfObject.UnloadProgram | src/xdp_example/ddos/tools/lib/bpf/libbpf.c:276-297 | Every instance is closed once, and the slots are gone |
| FdObject.BpfObject.SetPrep | src/xdp_example/ddos/tools/lib/bpf/libbpf.c:1926-1952 | Refused while there are slots; otherwise free slots are added, if there is memory |
| FdObject.BpfObject.BtfNew | src/xdp_example/ddos/tools/lib/bpf/btf.c:303-365 | The BTF's descriptor, or nothing open after a failed parse |
| FdObject.BpfObject.FreeBtf | src/xdp_example/ddos/tools/lib/bpf/btf.c:290-301 | The BTF's descriptor is closed once |
| FdObject.BpfObject.CollectSections | src/xdp_example/ddos/tools/lib/bpf/libbpf.c:775-908 | Which programs the sections bring, in file order, which BTF the object ends with and which descriptors it loses, for any sections; it fails exactly if one of them does |
| FdObject.BpfObject.ElfInit | src/xdp_example/ddos/tools/lib/bpf/libbpf.c:498-555 | The file's descriptor is held on success; after a failure it is closed unless the ELF library refused the file |
| FdObject.BpfObject.ElfFinish | src/xdp_example/ddos/tools/lib/bpf/libbpf.c:480-496 | Closes the file only while the ELF handle is valid |
| FdObject.BpfObject.Close | src/xdp_example/ddos/tools/lib/bpf/libbpf.c:1782-1815 | After close the process has what it had before and what was lost |
| FdLifecycle.Kernel.Grant | src/xdp_example/ddos/tools/lib/bpf/libbpf.c:1117-1130 | The lowest descriptor not in use, or none |
| FdLifecycle.NothingHeld | src/xdp_example/ddos/tools/lib/bpf/libbpf.c:1782-1815 | In balanced books an object with free slots only has left the process as it was, but for what is lost |
| FdLifecycle.CloseBalances | src/xdp_example/ddos/tools/lib/bpf/libbpf.c:160-166 | Closing a slot closes a descriptor that is open, and keeps the books balanced: nothing is closed twice |
| FdLifecycle.IssueBalances | src/xdp_example/ddos/tools/lib/bpf/libbpf.c:1117-1130 | Storing a new descriptor in a free slot keeps them balanced |
| FdLifecycle.MapsAreDistinct | src/xdp_example/ddos/tools/lib/bpf/libbpf.c:1089-1145 | Two maps never hold the same descriptor, and none holds a closed one |

## Left out

- NetdVerdicts.ExemptionsNeverHurt: the rules are taken to be three different bits, as in `NetdVerdicts.StandbyNeverHelps` and in the rows about single rules; with shared bits an exemption can put a uid in standby.
- MapFiles.InitWritten: for sections below 2^31 bytes; in larger ones `MapFiles.WrittenComesBack` holds, and the order of the table is that of the comparison.
- Linker.CollectReloc: record offsets are assumed to lie inside the program, as the source assumes without a test.
- LinkerMeaning.LinkingPreservesMeaning: assumes that no call is relocated twice and that control stays inside its section; the exact semantics of arithmetic, memory and helper calls is a parameter.
- LinkerMeaning.ObjectLinkingPreservesMeaning: symbols of 64-bit loads are taken to lie in the maps section, since the code picks the map by value alone.
- PerfRing.ReadSimple: `PerfRing.Ring.Valid` is what the kernel guarantees (a size that divides 2^64, whole records in multiples of eight bytes, at most one ring of data). The scratch buffer is valid before the call; in runs, a reader whose scratch buffer is gone is not called again. Memory fences and volatile accesses are taken as atomic steps.
- List.ListDel: poisoned pointers are modelled by null. The `_safe`, `_reverse`, `_continue` and `_from` iterators and the entry macros add nothing to the forward walk.
- Btf.TypeTable.Add: whether `realloc` fails is a parameter; sizes of pointers in bytes are not modelled.
- Btf.ParseTypeSec: bytes behind the section are readable, as the source assumes when the last record is cut short; header and string section parsing and `btf__find_by_name` (a linear search) are not modelled.
- BtfResolve.ResolveSize: `sizeof(void *)` is 8.
- NetdUpdate.NoUpdateIsLost: deletions of the entry by user space while packets are counted are not modelled.
- NetdAccounting.TrafficMaps.TrafficAccount: `skb->protocol` is compared with host-order constants, as the code does; the constants of `netdbpf/bpf_shared.h` are parameters, since that file is not part of this model; one packet is accounted for at a time, the interleavings being the subject of `NetdUpdate` and `NetdInterleaving`. Counters are 64 bits wide.
- NetdInterleaving.InterleavedTrafficIsConserved: whether an insertion finds room is a parameter of each step; entries deleted by user space meanwhile are not modelled, as in `NetdUpdate`.
- NetdInterleavedTags.InterleavedTagsNeverExceedTagZero: under the same conditions; `NetdInterleavedTags.TagsAreCovered` has no condition on room or wraps.
- NetdConservation.TrafficIsConserved: maps are large enough for the run; `NetdConservation.RunConservesIff` has no such condition.
- XdpFilter.Filter.ParsePort: the layer-4 header is taken to follow a five-word IPv4 header, as in the code. Per-CPU masks are read by the filter as 32-bit words and by user space as 64-bit words; the model uses 64 bits for both, the two bits in use being the lowest. The low word is the one a 32-bit pointer sees, as on a little-endian machine.
- XdpCounters.DropsReconcile: runs without deletions; `PortControl.LevelIffNothingMissed` covers all histories.
- PortControl.BlacklistPortModify: address strings are taken as already converted, or not convertible; edits are sequential.
- Nlattr.NlaParse: printing a message about repeated attributes, and `nla_dump_errormsg`, which formats the kernel's message.
- MapLoader.InitMaps: the addition of a symbol's value and the record size is not wrapped at 2^64, records are below 2^31 bytes, and failing allocations are not modelled.
- MapLoader.LoadElfMapsSection: the memory behind the section reaches to the end of every definition that is copied, which the source does not test; the assertion is taken as compiled in; what a write behind the table destroys, and failing allocations, are not modelled.
- MapLoader.Qsort: stands for the C library's `qsort`; that it works in place is not captured, and nothing but its contract is used.
- MapPatching.ParseReloAndApply: records and symbols are taken to be readable, as the source does not test it.
- FdObject.OpenAndLoad: when relocation succeeds is one answer of `FdObject.World` here; `LinkerFiles.LinkFile` says when it does. Of several sections named `.text` the object takes the last for its text, which is the one marked.
- FdObject.Session: other threads that open and close descriptors meanwhile; pinning, and handing descriptors to callers, who borrow them.
- FdObject.BpfObject.LoadProgram: the retries of the system call with a log buffer are one answer of the kernel.
- FdObject.BpfObject.AddProgram: names, sizes and instructions of programs, which hold no descriptor.
- System calls, sockets, reading ELF files, attachment of probes, the BPF file system, option parsing, printing, statistics display and packet dumps are inputs, results or absent.
- `ksym_search`, section-name tables and syscall wrappers: finite lookups or encodings.
- The copies under `notes/ljy/example/files` repeat the code under `src`.
