# A verified model of openSIL

openSIL is the silicon-initialisation library that host firmware links in to bring up an AMD
system-on-chip. This project models the parts of it that carry real state or compute with it, and
proves what they promise over every input, every run or every reachable state.

* **Register tables** (`AmdTableFormat`, `SmnRange`, `AmdTableEffects`, `AmdTableReplay`, `AmdTable`,
  `CcxRoles`, `AmdTableExample`).
  A table is a byte program. The interpreter walks it with a cursor and performs read-modify-writes
  that depend on silicon revision, platform features and the role of the core. Proved: encoder and
  interpreter are inverse to each other, which platforms an entry applies to bit by bit, a whole run is one AND and one OR per register with the last
  writer winning per bit, exactly when an index loop ends, exactly when processing a table again ends
  and changes nothing, and what the early exit over core selectors loses.
* **The info-block heap** (`InfoBlocks`, `Sizing`, `SilHeap`, with `Bytes`). One block of host memory
  holds variables, API tables and a chain of headers. Proved on the bytes: every run of creates,
  writes and registrations keeps the chain tiling the memory, lookups answer by creation history and
  never change, exactly when timepoint 1 has room for every record, and the heap can be moved between
  timepoints.
* **Deferred resets** (`DeferredReset`): the initialisation loop over all timepoints.
* **The PCIe topology** (`PcieTopology`, `PcieSilicons`, `PcieBuild`, `PcieExample`): searches and walks
  over descriptors linked by 16-bit offsets, agreement of the flat and the nested walks over silicons,
  wrappers and engines, and the builder that links any number of complexes into a topology on which the
  walks work.
* **The APOB and its readers** (`Apob`, `CpuMap`, `DimmPresence`, `LowDram`, `Crat`): the record walk
  with its write-once base and unique lookup, the CPU map, the DIMM presence map, the top of low DRAM
  and the CRAT processor records.
* **Bit utilities** (`BitUtils`).

`SilStatus` and `Options` hold the status codes and the type of a pointer that may be null. Code that
works in place is modelled by classes, arrays and loops; each method is tied to a function of the old
state, and the properties are proved about those functions.

Where a promise does not hold of the code for all inputs, the code is modelled as written, and a lemma
gives the exact condition: `StopsIff`, `ReplayIffNoHazard`, `RolesNestIff`, `EarlyExitIff`,
`RequestSizeFits`, `Tp1PassesIff`, `SizingNeeds32Bits`, `Tp1Accounting`, `EndsIff`, `WalksAgreeIff`,
`ExcludeFlagsIff`, `LinkJoinsIff`, `PresenceExactIff`, `StaysInsideIff`, `BehindKeptIff`,
`TruncationSafeIff`, `ConservedIff`, `NoStrayIff`, `DistinctIff`. Lemmas named `...Example` give inputs
on which a promise fails, or literal values that fix a format or a rule.

Places where comments and code disagree, and the model follows the code:

* xUSL/CCX/Common/AmdTable.h:69-73 allows every core to process a table redundantly. An SMN entry is
  guarded by bit 8 of the APIC base register, which is read anew for each entry and which a table may
  write, so a second pass can do more than the first, or not end.
* xUSL/XMP/XmpRevB-api.h:33-37 announces the memory the example IP needs as the sum of its data. It
  creates two blocks, each with its own header, which take more than the query reserves for the record.
* xSIM/xSIM.c:604 says a deferred reset continues with the next IP. The `continue` in line 605 skips
  the increment in line 609, so the same IP is called again.
* xUSL/NBIO/NbioPcieTopologyHelper.c:217 combines the exclude flags with `&&`. Any nonzero exclude
  flags then exclude every descriptor with a nonzero flag word.
* xPRF/Mem/xPrfMem.c:1015-1016 clears the presence words of two dies, whatever the dimensions. With more
  dies the other words keep old bits. Include/xPRF-api.h:118 gives the map one word per die, so with a
  single die line 1016 writes the word behind the map.
* xPRF/Mem/xPrfMem.c:725 calls the truncation to 32 bits safe; it is not if memory ends above 4 GiB and
  no hole starts below.
* xPRF/CCX/xPrfCcx.c:574 opens a new record for every die of domain 0, and lines 586-589 add the counts of
  an earlier die if the core-topology query fails, since its status is not looked at.

## Model

| member | source | states |
|---|---|---|
| AmdTableFormat.DataRoundTrip | xUSL/CCX/Common/AmdTable.h:112-162 | the bytes the MAKE_ macros lay down for an entry have the size its handler skips, and decode to the same entry |
| AmdTableFormat.DataBytesRoundTrip | xUSL/CCX/Common/AmdTable.h:198-304 | any data bytes of an entry type are the encoding of the entry that the packed layout reads from them |
| AmdTableFormat.ParseEncode | xUSL/CCX/Common/AmdTable.c:720-757 | wherever an encoded table lies among other bytes, the cursor decodes exactly its entries, in order, and stops right behind the terminator |
| AmdTableFormat.EncodeParse | xUSL/CCX/Common/AmdTable.c:720-757 | every byte string that can be run to a terminator is, byte for byte, the encoding of the entries decoded from it |
| AmdTableFormat.TableEncodingUnique | xUSL/CCX/Common/AmdTable.h:112-162 | the format is prefix free: the same bytes never hold two different tables |
| AmdTableExample.EntryBytes | xUSL/CCX/Common/AmdTable.h:198-278 | the literal bytes of a PCI and MSR entry of each kind: type, criteria, address, data, mask |
| AmdTableExample.SmnBytes | xUSL/CCX/Common/AmdTable.h:280-304 | the literal bytes of both kinds of SMN entry and of the terminator |
| AmdTableEffects.FeaturesMatchIff | xUSL/CCX/Common/AmdTable.c:226-249 | bit by bit: without bit 31 an entry matches if and only if some bit is set in both words; with it, if and only if every lower bit of the entry is a platform bit and platform bit 31 is clear |
| AmdTableEffects.IdMatchesIff | xUSL/CCX/Common/AmdTable.c:302-323 | a logical id matches if and only if some family bit and some revision bit are common |
| AmdTableEffects.MatchesIff | xUSL/CCX/Common/AmdTable.c:264-545 | for every kind of entry, when it is applied: which word of the platform it is compared with and how |
| AmdTableExample.X2ApicExample | xUSL/CCX/Zen4/CcxResetTablesZen4.c:28-29 | the entry that enables x2APIC mode does so on a platform with that feature and on no other |
| AmdTableExample.RunExample | xUSL/CCX/Common/AmdTable.c:179-357 | the values of an MSR and a PCI register after a table of two entries |
| AmdTableExample.RangeExample | xUSL/CCX/Common/AmdTable.c:566-595 | the four updates of a range of two indices on two dies, in order; none off the boot core |
| AmdTableEffects.NormalForm | xUSL/CCX/Common/AmdTable.c:338-357 | any list of read-modify-writes acts on each register as one AND and one OR that do not depend on its value |
| AmdTableEffects.BitAfter | xUSL/CCX/Common/AmdTable.c:338-357 | bit by bit, that AND and OR is the value the last write leaves, or the old bit if there is none |
| AmdTableEffects.ExecuteIsEffects | xUSL/CCX/Common/AmdTable.c:720-757 | a whole run, with the boot-core test repeated in each intermediate state, is one list of updates fixed by the start value of bit 8 of the APIC base register |
| AmdTableEffects.LastWriterWins | xUSL/CCX/Common/AmdTable.c:720-757 | after a run each bit of each register is the data bit of the last update that writes it; a bit no update writes is untouched |
| AmdTableEffects.LastMatchingEntryWins | xUSL/CCX/Common/AmdTable.c:338-595 | in table terms, for MSR, PCI and SMN registers alike: each bit holds the data bit of the last entry that matches, is applied given the boot-core bit the run has by then, and writes it; bits no such entry names keep their value |
| AmdTableEffects.UpdatesWrite | xUSL/CCX/Common/AmdTable.c:116-595 | the updates of an entry write exactly the bits of the registers that its fields name, on every addressed die and at every index of its range, with its data |
| AmdTableEffects.UpdatesByKind | xUSL/CCX/Common/AmdTable.c:527-595 | SMN entries touch SMN registers only and only on the boot core; all other entries do the same on every core and touch no SMN register |
| AmdTableEffects.MultiUpdatesUnique | xUSL/CCX/Common/AmdTable.c:566-595 | the updates of an index loop that leaves its range do not depend on which exit count is taken as evidence |
| AmdTableEffects.ExecuteAppend | xUSL/CCX/Common/AmdTable.c:720-757 | running two tables one after the other is running their concatenation |
| AmdTableEffects.RunnableAppend | xUSL/CCX/Common/AmdTable.c:566-595 | the index loops of a run end if and only if those of its two parts do, the second from the state the first leaves |
| AmdTableEffects.RunnableIff | xUSL/CCX/Common/AmdTable.c:566-595 | whether a run ends is decided by the table, the platform and the boot-core bit at the start |
| AmdTableEffects.BscBitKept | xUSL/CommonLib/xUslCcxRoles.c:24-29 | tables none of whose matching entries writes the boot-core bit leave it as it was |
| SmnRange.StopsIff | xUSL/CCX/Common/AmdTable.c:586-590 | the 32-bit index loop leaves its range if and only if the first index, with the lowest one bit of the step and all bits above it set, exceeds the last index |
| SmnRange.Reaches | xUSL/CCX/Common/AmdTable.c:586-590 | without the bound the loop reaches every index that agrees with the first one below the lowest one bit of the step |
| SmnRange.NthAgrees | xUSL/CCX/Common/AmdTable.c:586-590 | and no other index |
| SmnRange.NeverStops | xUSL/CCX/Common/AmdTable.c:586-590 | a range up to the largest index is never left, nor is one that the start lies in if the step is 0 |
| AmdTableReplay.BspOnlyAdds | xUSL/CommonLib/xUslCcxRoles.c:24-29 | starting on the boot core only adds writes: every bit written without the flag gets the same last value with it |
| AmdTableReplay.ReplaySame | xUSL/CCX/Common/AmdTable.h:69-73 | if the first pass ends, and the core starts as boot core or the table has no hazard, the second pass ends and changes no register |
| AmdTableReplay.ReplayIffNoHazard | xUSL/CCX/Common/AmdTable.h:69-73 | replay is harmless from every start state whose first pass ends if and only if the table has no hazard: a pass that ends and switches the boot-core bit on, while a pass that starts with the bit writes something more or does not end |
| AmdTableReplay.EndsWithout | xUSL/CCX/Common/AmdTable.c:566-595 | a run that ends when it starts with the boot-core bit also ends without it |
| AmdTableReplay.HazardState | xUSL/CCX/Common/AmdTable.c:527-595 | for every hazard there is a start state from which the first pass ends and the second does not, or changes a register |
| AmdTableReplay.HazardWitness | xUSL/CCX/Common/AmdTable.c:527-545 | for a bit written only by the boot core there is a start state in which the second pass changes it |
| AmdTableReplay.NoHazardWithoutSmn | xUSL/CCX/Common/AmdTable.c:338-506 | tables of MSR and PCI entries act alike on every core and are always safe to replay |
| AmdTableReplay.NoHazardIfBscBitKept | xUSL/CommonLib/xUslCcxRoles.c:24-29 | so are tables none of whose matching entries writes the boot-core bit |
| AmdTableReplay.HazardExample | xUSL/CCX/Common/AmdTable.c:527-545 | a concrete two-entry table whose second pass writes more |
| AmdTableReplay.HangExample | xUSL/CCX/Common/AmdTable.c:586-590 | a concrete two-entry table whose first pass ends and whose second does not |
| CcxRoles.RolesNestIff | xUSL/CommonLib/xUslCcxRoles.c:40-93 | socket primary implies die, complex and compute-unit primary for every APIC id if and only if the threads per core are 0 or divide 16 |
| CcxRoles.NestFor | xUSL/CommonLib/xUslCcxRoles.c:40-93 | the nesting for one APIC id under that condition |
| CcxRoles.PrimaryIds | xUSL/CommonLib/xUslCcxRoles.c:40-93 | which cores satisfy each selector, by APIC id: multiples of 64 or 128 for socket and die, of 8 or 16 for a complex, of the threads per core for a compute unit |
| CcxRoles.LeadingRoles | xUSL/CCX/Common/AmdTable.c:769-796 | the roles before the first one the core lacks: 1, 2, 3 or 5 selectors |
| CcxRoles.NoNest | xUSL/CommonLib/xUslCcxRoles.c:40-93 | a core whose roles do not nest fails the second selector although it satisfies the third |
| CcxRoles.RolesBehind | xUSL/CCX/Common/AmdTable.c:769-796 | when roles nest, only the boot-core selector can be satisfied from there on |
| AmdTable.Machine.SetSmnTableEntry | xUSL/CCX/Common/AmdTable.c:116-163 | one SMN read-modify-write per addressed die, with the die count cached once; nothing if the SMU is absent |
| AmdTable.Machine.SetPciEntry | xUSL/CCX/Common/AmdTable.c:179-198 | the read-modify-write of the entry decoded at the cursor, and the cursor's advance |
| AmdTable.Machine.SetPciProfileFixupEntry | xUSL/CCX/Common/AmdTable.c:264-285 | the same if the performance profile matches, the advance either way |
| AmdTable.Machine.SetPciCpuRevEntry | xUSL/CCX/Common/AmdTable.c:302-323 | the same if the silicon revision matches, the advance either way |
| AmdTable.Machine.SetMsrEntry | xUSL/CCX/Common/AmdTable.c:338-357 | the MSR read-modify-write at the cursor and the advance |
| AmdTable.Machine.SetMsrCpuRevEntry | xUSL/CCX/Common/AmdTable.c:373-392 | the same if the silicon revision matches |
| AmdTable.Machine.SetMsrCoreRevEntry | xUSL/CCX/Common/AmdTable.c:408-427 | the same if the core revision matches |
| AmdTable.Machine.SetMsrPlatformFeatEntry | xUSL/CCX/Common/AmdTable.c:443-463 | the same if the platform features match |
| AmdTable.Machine.SetMsrCpuRevPlatformFeatEntry | xUSL/CCX/Common/AmdTable.c:480-506 | the same if revision and features match |
| AmdTable.Machine.SetSmnEntry | xUSL/CCX/Common/AmdTable.c:527-545 | the SMN updates on the boot core, nothing elsewhere, the advance either way |
| AmdTable.Machine.SetSmnMultiEntry | xUSL/CCX/Common/AmdTable.c:566-595 | the SMN updates of every index of the range, in order, for every range that the loop leaves |
| AmdTable.Machine.SetSmnRange | xUSL/CCX/Common/AmdTable.c:566-595 | the index loop with its 32-bit wrap-around refines the recursive list of updates |
| AmdTable.Machine.DoTableEntry | xUSL/CCX/Common/AmdTable.c:18-30 | dispatch by type: every handler advances by its entry's size and performs its entry's updates |
| AmdTable.CursorStep | xUSL/CCX/Common/AmdTable.c:740-756 | the cursor always stands on a type word: it is the terminator exactly when all entries are done, otherwise the next entry is decoded there |
| AmdTable.Machine.DoEntryAtCursor | xUSL/CCX/Common/AmdTable.c:740-756 | one turn of the loop executes entry k and moves the cursor to entry k + 1 |
| AmdTable.Machine.SetRegistersFromTable | xUSL/CCX/Common/AmdTable.c:720-757 | the interpreter ends and leaves the registers that executing the parsed entries in order gives; the index ranges it meets must pass the closed test of StopsIff |
| AmdTable.GetNextRegisterTable | xUSL/CCX/Common/AmdTable.c:64-95 | the first table behind the handle with the selector, and the handle reset at the end of the list |
| AmdTable.Machine.RunSelected | xUSL/CCX/Common/AmdTable.c:833-841 | the inner loop with that iterator runs exactly the tables with the selector, in list order |
| AmdTable.Machine.SetRegistersFromTableList | xUSL/CCX/Common/AmdTable.c:822-847 | the tables run are the list filtered by each selector in turn, for as many selectors as the roles of the core and the boot-core bit say |
| AmdTable.ScannedNext | xUSL/CCX/Common/AmdTable.c:833-846 | while the scan is under way the next selector is satisfied if and only if the scan is to get through it, so that number is exact |
| AmdTable.PlanByWord | xUSL/CCX/Common/AmdTable.c:822-847 | the scan runs the tables with selector word 0, then those with 1, and so on up to 5, each in list order |
| AmdTable.ExhaustiveLeads | xUSL/CCX/Common/AmdTable.c:822-847 | as far as the scan gets, the scan with early exit and the scan without it agree |
| AmdTable.EarlyExitIff | xUSL/CCX/Common/AmdTable.c:842-845 | for every core and list, the break skips no selector the core satisfies if and only if the roles of the core nest, and it is socket primary or is not the boot core after the tables of its leading roles |
| AmdTable.SkippedTables | xUSL/CCX/Common/AmdTable.c:822-847 | what the break loses: for a core whose roles nest, the scan without it runs the boot-core tables in addition exactly when that condition fails |
| AmdTable.EarlyExitIffBootCore | xUSL/CCX/Common/AmdTable.c:842-845 | for lists that leave the boot-core bit alone: if and only if the roles nest, and the core is socket primary or does not start as boot core |
| AmdTable.EarlyExitExample | xUSL/CCX/Common/AmdTable.c:842-845 | a boot core with APIC id 1 and a core with three threads lose selectors |
| InfoBlocks.RequestSizeFits | xSIM/xSIM.c:44-52 | the rounded size holds header and data if and only if the request is below 2^64 - 16; it is always a multiple of 4 |
| InfoBlocks.CreateRepresents | xSIM/xSIM.c:453-501 | a create does to the bytes what it does to the list of blocks; a refused one changes no byte, a granted one no byte of an existing block, and the data of the new block is zero |
| InfoBlocks.CreatedBytes | xSIM/xSIM.c:481-499 | every byte of the memory after a granted create: the two counters, the header fields at their offsets, zeros for the data, and nothing else changed |
| InfoBlocks.PutRepresents | xUSL/CommonLib/SilServices.c:107-132 | writing block data or API tables disturbs neither the accounting nor any header |
| InfoBlocks.StepRepresents | xSIM/xSIM.c:453-501 | each kind of step keeps the heap well formed |
| InfoBlocks.RunBytes | xSIM/xSIM.c:453-501 | over every run: offset plus free space is the block size, and the headers tile the used space without gap or overlap, with positive sizes divisible by 4 |
| InfoBlocks.RunOnlyAppends | xSIM/xSIM.c:484-499 | blocks are only added behind the others and space is conserved |
| InfoBlocks.BlocksInOrder | xSIM/xSIM.c:484-499 | blocks lie in creation order and never overlap |
| InfoBlocks.LookupIsEarliest | xUSL/CommonLib/SilServices.c:51-93 | a lookup gives the data of the earliest created block with the identifier and instance, and nothing if and only if there is none |
| InfoBlocks.LookupAppend | xUSL/CommonLib/SilServices.c:51-93 | later blocks answer only what earlier ones do not |
| InfoBlocks.LookupStable | xUSL/CommonLib/SilServices.c:51-93 | an answer never changes, whatever is created, written or registered later |
| InfoBlocks.ApiStep | xUSL/CommonLib/SilServices.c:107-132 | a step changes an entry of the API tables only by registering that entry |
| InfoBlocks.ApiSlots | xUSL/Include/SilCommon.h:190-201 | the two tables lie at bytes 24 and 208, before the first block at 392, and no two entries share a byte |
| InfoBlocks.ApiIsLastRegistered | xUSL/CommonLib/SilServices.c:107-262 | over every run each entry of the API tables holds what was registered there last |
| Sizing.QueryMemoryRequirements | xSIM/xSIM.c:166-201 | the query is the sum of all rounded requests and the variables, rounded up to 2048 |
| Sizing.AllGrantedIff | xSIM/xSIM.c:481 | a sequence of creates is granted in full if and only if its total is strictly below the free space |
| Sizing.SizingSuffices | xSIM/xSIM.c:166-201 | with the queried size no create is refused, in any order, as long as the blocks of each record together take no more than its rounded request; a record that has created nothing still passes its space check |
| Sizing.SizingNeeds32Bits | xSIM/xSIM.c:280-284 | with the 32-bit counters the queried size suffices for all announced blocks if and only if it fits 32 bits |
| Sizing.Tp1Accounting | xSIM/xSIM.c:280-284 | after timepoint 1 offset and free space add up to the stored block size if and only if the truncated size covers the variables, for every memory size |
| Sizing.Tp1Suffices | xSIM/xSIM.c:310-345 | with the queried size, and blocks within each rounded request, timepoint 1 returns the first status that an IP itself reports |
| Sizing.SetInputIff | xUSL/XMP/Common/XmpCommon.c:152-197 | a SetInput function ends with its own status if all its creates are granted, otherwise aborted |
| Sizing.Tp1Reports | xSIM/xSIM.c:310-345 | with room for every record in turn timepoint 1 returns the first status that an IP itself reports |
| Sizing.Tp1PassesIff | xSIM/xSIM.c:310-345 | timepoint 1 passes if and only if every IP reports success and, record by record, what the earlier records take leaves room for the request and strictly more than all the blocks of the record |
| Sizing.BudgetFits | xSIM/xSIM.c:310-345 | there is such room if memory exceeds the sum of the query and each record stays within its rounded request |
| Sizing.XmpExample | xUSL/XMP/Common/XmpCommon.c:163-189 | the two blocks of the example IP exceed its rounded request, and with the queried size timepoint 1 can be aborted |
| Sizing.ForeignBlockExample | xSIM/xSIM.c:327 | an IP that creates another record's block makes timepoint 1 run out of resources although every block fits |
| SilHeap.Heap.CreateInfoBlock | xSIM/xSIM.c:453-501 | the bytes after a create, the new block's data offset and its zeroed data, and null exactly when the free space does not exceed the size |
| SilHeap.Heap.FindStructure | xUSL/CommonLib/SilServices.c:51-93 | the walk over headers in memory ends and answers by creation history |
| SilHeap.ChainPosition | xUSL/CommonLib/SilServices.c:64-89 | the walk stands on a header exactly while blocks remain, and reads that block from memory |
| SilHeap.Heap.RegisterApi | xUSL/CommonLib/SilServices.c:107-132 | one table entry is written, or nothing for an identifier out of range; the heap stays |
| SilHeap.Heap.GetApi | xUSL/CommonLib/SilServices.c:149-176 | whatever run led to the heap, the interface registered last, and not found if and only if it is null |
| SilHeap.Heap.RegisterAll | xSIM/xSIM.c:213-239 | the API tables after the registrations of one IP |
| SilHeap.Heap.InitializeIpApis | xSIM/xSIM.c:213-239 | the first failing ApiInit ends the loop; the tables hold what the IPs up to it registered last, and nothing behind the variables is written |
| Sizing.FirstFailingApi | xSIM/xSIM.c:213-239 | if the ApiInit of record k is the first to fail, its status is returned and the tables hold what the records up to k registered last |
| Sizing.NoFailingApi | xSIM/xSIM.c:213-239 | if none fails, the status is pass and all registrations are made |
| SilHeap.Heap.SetUpVariables | xSIM/xSIM.c:280-284 | an empty, well-formed heap with the three counters at bytes 0, 4 and 8; no other byte changes, so the API tables stay as they were |
| SilHeap.Heap.RunSetInputs | xSIM/xSIM.c:310-345 | the record loop with its space checks on the bytes refines the loop on block lists |
| SilHeap.Heap.AssignMemoryTp1 | xSIM/xSIM.c:257-346 | status, heap and API tables after timepoint 1, whatever the memory held before |
| SilHeap.Heap.AssignMemoryAgain | xSIM/xSIM.c:364-434 | after the block is copied to a new base every lookup answers with the same offset; block data is untouched |
| SilHeap.Relocate | xSIM/xSIM.c:364-434 | a heap depends only on its own bytes: any copy of them is the same heap |
| DeferredReset.KeepsJoin | xSIM/xSIM.c:552-618 | at every point of a run the stored type is the join of all requests so far in None < Warm < Cold; it never falls, and a run that ends returns it whatever status ended the loop |
| DeferredReset.TimepointsKeepJoin | xSIM/xSIM.c:583-618 | the same over all timepoints: the stored type is the join of every request of every timepoint so far |
| DeferredReset.ReturnsFailure | xSIM/xSIM.c:583-618 | what a run that ends returns: the kept request; without one the status of the call that failed outright, which is the last one made; without one pass |
| DeferredReset.EndsIff | xSIM/xSIM.c:583-618 | a run ends if and only if some call fails outright or as many calls pass as records have an Initialize function |
| DeferredReset.DeferredForever | xSIM/xSIM.c:604-609 | an IP that keeps asking for a deferred reset is called for ever |
| DeferredReset.Initializer.InitializeIps | xSIM/xSIM.c:583-618 | the loop refines that run, for any sequence of outcomes |
| PcieTopology.FindChild | xUSL/NBIO/NbioPcieTopologyHelper.c:27-37 | the search along child links ends at the nearest descriptor of the type |
| PcieTopology.FindParent | xUSL/NBIO/NbioPcieTopologyHelper.c:69-79 | the search along parent links ends at the nearest descriptor of the type |
| PcieTopology.ChildPath | xUSL/NBIO/NbioPcieTopologyHelper.c:27-37 | the search follows a path of child links and stops at the first descriptor of the type or at the end of the links |
| PcieTopology.PeerPath | xUSL/NBIO/NbioPcieTopologyHelper.c:49-59 | the same along peer links |
| PcieTopology.ParentPath | xUSL/NBIO/NbioPcieTopologyHelper.c:69-79 | the same back along parent links |
| PcieTopology.NextInTopology | xUSL/NBIO/NbioCommon.h:45-47 | the next descriptor of the peer list, none behind the termination flag given |
| PcieTopology.ChainAscends | xUSL/NBIO/NbioCommon.h:45-47 | addresses grow along a peer list, so no descriptor is met twice |
| PcieTopology.AllEngines | xUSL/NBIO/NbioPcieTopologyHelper.c:302-321 | the flat walk ends and calls back on exactly the selected engines, if the first wrapper leads to one |
| PcieTopology.EnginesInWrapper | xUSL/NBIO/NbioPcieTopologyHelper.c:334-354 | the walk of one wrapper calls back on exactly the selected engines whose parent it is |
| PcieTopology.EnginesOfAllWrappers | xUSL/NBIO/NbioPcieTopologyHelper.c:236-258 | the nested walk calls back on exactly the selected engines of all wrappers, in order |
| PcieTopology.EnginesViaWrapper | xUSL/NBIO/NbioPcieTopologyHelper.c:27-37 | an engine search that passes a wrapper ends where a search from that wrapper ends |
| PcieTopology.WalksAgreeIff | xUSL/NBIO/NbioPcieTopologyHelper.c:236-354 | flat and nested walk agree for every filter if and only if the first wrapper has an engine or there is none at all |
| PcieTopology.WalksDifferExample | xUSL/NBIO/NbioPcieTopologyHelper.c:302-321 | two wrappers with an engine under the second only: the flat walk calls back on nothing |
| PcieTopology.PickedIffSelected | xUSL/NBIO/NbioPcieTopologyHelper.c:302-321 | a callback is made on a descriptor if and only if it is in the list, has a wanted engine type, and is allocated if that is asked for, in terms of the flag bits |
| PcieTopology.AllocatedOnly | xUSL/NBIO/NbioPcieTopologyHelper.c:302-354 | asking for allocated engines keeps, of the callbacks made otherwise, exactly those on allocated engines |
| PcieTopology.PickedAscends | xUSL/NBIO/NbioPcieTopologyHelper.c:302-321 | no engine is called back on twice |
| PcieTopology.ExcludeFlagsIff | xUSL/NBIO/NbioPcieTopologyHelper.c:199-224 | the callbacks are those the parameter description asks for if and only if no exclude flag is given or every included descriptor carries one |
| PcieTopology.ExcludeExample | xUSL/NBIO/NbioPcieTopologyHelper.c:217 | a wrapper that carries no excluded flag and is left out |
| PcieTopology.AllDescriptors | xUSL/NBIO/NbioPcieTopologyHelper.c:199-224 | the descriptors called back on up to the termination flag given, and the worst status of the callbacks |
| PcieTopology.Worst | xUSL/NBIO/NbioPcieTopologyHelper.h:19-22 | the aggregated status is the highest one returned |
| PcieTopology.FlagBits | xUSL/NBIO/GnbDxio.h:19-32 | the descriptor flags and the types made of them |
| SilStatus.CodeOrder | Include/Sil-api.h:51-74 | the status values that the comparison uses |
| PcieSilicons.AllWrappers | xUSL/NBIO/NbioPcieTopologyHelper.c:236-258 | the walk over all wrappers ends and calls back on all of them in order, or on none if the filter names no wrapper |
| PcieSilicons.WrappersInNbio | xUSL/NBIO/NbioPcieTopologyHelper.c:271-291 | the walk of one silicon ends at the first wrapper of the next and calls back on exactly its own wrappers |
| PcieSilicons.WrappersOfAllSilicons | xUSL/NBIO/NbioPcieTopologyHelper.c:271-291 | silicon by silicon, these walks make exactly the callbacks of the walk over all wrappers |
| PcieBuild.FindPeer | xUSL/NBIO/NbioPcieTopologyHelper.c:49-59 | the search along peer links ends at the nearest descriptor with the flag |
| PcieBuild.Topology.AttachDescriptors | xUSL/NBIO/IOD/NbioPcie.c:37-55 | one list is linked behind another, or nothing changes if either search fails |
| PcieBuild.LinkJoinsIff | xUSL/NBIO/IOD/NbioPcie.c:51-54 | the link joins the two lists if and only if the second starts less than 64 KiB behind the end of the first |
| PcieBuild.LinkKeepsChain | xUSL/NBIO/IOD/NbioPcie.c:51-54 | lists without the linked descriptor stay as they are |
| PcieBuild.PeerSearchEnds | xUSL/NBIO/IOD/NbioPcie.c:44-47 | from any descriptor of the last complex the peer search ends at the last of the list |
| PcieBuild.StepFinds | xUSL/NBIO/IOD/NbioPcie.c:37-79 | the searches of each attachment find the end of the list joined so far and the start of the list of the next complex |
| PcieBuild.LinkStep | xUSL/NBIO/IOD/NbioPcie.c:68-79 | one link joins the lists of its kind and leaves the lists of all other kinds and complexes alone |
| PcieBuild.Topology.AttachComplexes | xUSL/NBIO/IOD/NbioPcie.c:68-79 | the four steps attach complex, silicons, wrappers and engines of one more complex |
| PcieBuild.BuiltWellFormed | xUSL/NBIO/IOD/NbioPcie.c:293-295 | with all complexes attached, the silicons, wrappers and engines of all of them, in order, form a topology on which the walks work |
| PcieBuild.RootParentKeeps | xUSL/NBIO/IOD/NbioPcie.c:304 | whatever distance is stored as the parent of the platform header, the topology of silicons, wrappers and engines stays well formed |
| PcieBuild.Topology.Build | xUSL/NBIO/IOD/NbioPcie.c:215-304 | for any number of complexes, the attachments and the last assignment lead to a topology on which the walks find every silicon, wrapper and engine; besides peer links and end flags only the parent of the platform header changes |
| PcieExample.TwoComplexes | xUSL/NBIO/IOD/NbioPcie.c:215-304 | two complexes of one silicon, wrapper and engine each below a platform header are a state the builder starts from |
| PcieExample.TwoComplexesExist | xUSL/NBIO/IOD/NbioPcie.c:215-304 | such an arena exists |
| Apob.Library.Init | xUSL/Apob.c:41-81 | the base is taken from the first successful call and never changes again |
| Apob.Library.GetEntries | xUSL/Apob.c:132-212 | the records of a group and type, in walk order, from the base fixed by then |
| Apob.Library.Walk | xUSL/Apob.c:187-203 | the byte walk ends and stores exactly the matching records |
| Apob.Scan | xUSL/Apob.c:264-283 | the second pass keeps the single match, and tells none from several |
| Apob.FoundPlaces | xUSL/Apob.c:233-283 | what both passes let through are exactly the wanted records, in order |
| Apob.TwoPassesAnswer | xUSL/Apob.c:233-283 | the two passes give the answer that one look at all records defines |
| Apob.AnswerIsUnique | xUSL/Apob.c:233-283 | that definition leaves one answer only |
| Apob.Library.GetEntryInstance | xUSL/Apob.c:233-283 | pass with the entry iff it is the only record with group, type and instance; not found iff there is none; unsupported iff there are several |
| Apob.WrittenIsRead | xUSL/Include/ApobCmn.h:94-110 | round trip: an APOB written as bytes anywhere in memory is accepted, and its records are found, in order, at their addresses |
| CpuMap.CountLeading | xUSL/Apob.c:526-561 | each counting loop gives the length of the leading run of present units |
| CpuMap.GetCoreTopologyOnDie | xUSL/Apob.c:502-565 | on the map itself: each count is the number of leading present CCDs, complexes of the first CCD, cores of its first complex and threads of the first core there |
| CpuMap.Collector.Add | xPRF/RAS/xPrfRas.c:252-269 | an entry is stored with the next number, or refused when less than one entry of room is left; entries and room always add up to the buffer size |
| CpuMap.Collector.AddCore | xPRF/RAS/xPrfRas.c:246-291 | one entry per present core and a second one if cores have two threads |
| CpuMap.DieIsFlat | xPRF/RAS/xPrfRas.c:236-294 | the nested loops meet exactly the threads, by number, whose CCD, complex and core the counts reach and are present, with the physical numbers of these |
| CpuMap.AllCollected | xPRF/RAS/xPrfRas.c:199-297 | if every query passes, the CPUs of all dies of all sockets are collected, in order |
| CpuMap.FailedSocket | xPRF/RAS/xPrfRas.c:200-204 | if a processor query is the first to fail, its status is returned with the CPUs of the sockets before |
| CpuMap.FailedDie | xPRF/RAS/xPrfRas.c:213-225 | if a topology query is the first to fail, its status is returned with the CPUs of the dies before |
| CpuMap.CollectCpuMap | xPRF/RAS/xPrfRas.c:156-302 | the status, and in the buffer every CPU met before the first failed query, numbered from 0 without gaps, or the first that fit; the rest of the buffer is untouched |
| CpuMap.AppendedPart | xPRF/RAS/xPrfRas.c:236-294 | a bounded append of a list of parts either takes all of them or fills the buffer with a prefix |
| CpuMap.MaxCpusSuffices | xPRF/RAS/xPrfRas.c:122-128 | no system of at most two sockets with one die has more CPUs than xPrfGetMaxCpus says, so such a buffer is never out of bounds |
| DimmPresence.TranslateChannelInfo | xPRF/Mem/xPrfMem.c:232-251 | the search in the translation table gives the platform channel, or the channel itself if it is not listed |
| DimmPresence.TranslationInjective | xPRF/Mem/xPrfMem.h:149-164 | the translation permutes the twelve channels and is injective |
| DimmPresence.SixteenChannels | xPRF/Mem/xPrfMem.c:1120-1126 | with up to sixteen channels of two DIMMs every bit lies in the word |
| DimmPresence.BitExample | Include/xPRF-api.h:119 | the bits of some DIMMs: 0 and 1 are the DIMMs of platform channel 0, which is channel 3 |
| DimmPresence.PositionInjective | xPRF/Mem/xPrfMem.c:1120-1126 | no two DIMMs of a die share a bit |
| DimmPresence.FillDie | xPRF/Mem/xPrfMem.c:1098-1127 | the bits of a die after the channel and DIMM loops: the old ones and one per installed DIMM |
| DimmPresence.BuildMemoryInfoData | xPRF/Mem/xPrfMem.c:1015-1130 | the word of every die, the memory behind the map, which words are written at all, and the status of the last lookup |
| DimmPresence.StaysInsideIff | xPRF/Mem/xPrfMem.c:1015-1016 | every word written lies in the map if and only if sockets times dies is at least 2 |
| DimmPresence.BehindKeptIff | xPRF/Mem/xPrfMem.c:1015-1016 | the memory behind the map keeps its contents if and only if it was 0 as far as the clearing reaches |
| DimmPresence.OneWordExample | xPRF/Mem/xPrfMem.c:1016 | with one socket of one die the word behind the map is cleared |
| DimmPresence.PresenceIff | xPRF/Mem/xPrfMem.c:843-861 | reading back at the platform channel gives 1 if and only if the die's lookup passed and the DIMM has a size, or its word was not cleared and held the bit before |
| DimmPresence.ReadExample | xPRF/Mem/xPrfMem.c:855-858 | bit 5 of a word alone is DIMM 1 of platform channel 2 |
| DimmPresence.SlotExample | xPRF/Mem/xPrfMem.c:855-856 | with two sockets of three dies, die 2 of socket 0 has word 2 and die 0 of socket 1 word 3, of six |
| DimmPresence.PresenceExactIff | xPRF/Mem/xPrfMem.c:1015-1016 | for any number of dies, the map of a die is exact if and only if it is one of the first two or held no bit of an absent DIMM |
| DimmPresence.StaleExample | xPRF/Mem/xPrfMem.c:1015-1016 | a third die that keeps reporting a DIMM that is gone |
| LowDram.GetLowUsableDramAddress | xPRF/Mem/xPrfMem.c:680-726 | 0 without a map or holes; otherwise the least of the top of memory and the bases of the nonempty holes below 4 GiB, cut to 32 bits |
| LowDram.TruncationSafeIff | xPRF/Mem/xPrfMem.c:725-726 | the cut is harmless if and only if memory ends below 4 GiB or a nonempty hole starts below |
| LowDram.BelowIsUsable | xPRF/Mem/xPrfMem.c:708-726 | for every map, cut or not, all addresses below the answer are DRAM and in no hole |
| LowDram.LowTopUnique | xPRF/Mem/xPrfMem.c:708-723 | the least of these is one address |
| LowDram.TruncationExample | xPRF/Mem/xPrfMem.c:725-726 | with the only hole at 4 GiB, 8 GiB of memory are reported as none |
| LowDram.HoleExample | xPRF/Mem/xPrfMem.c:708-723 | of memory up to 5 GiB with a hole from 3 GiB on, 3 GiB are usable, whatever empty or later holes there are |
| LowDram.AnswerIsTight | xPRF/Mem/xPrfMem.c:708-723 | the uncut answer is the top of memory or lies in a hole |
| Crat.Output.AddDie | xPRF/CCX/xPrfCcx.c:573-590 | the buffer holds the records of the dies seen so far; a record is open before anything is counted, and a failed query adds the counts of the last one that passed |
| Crat.GetCratHsaProcInfo | xPRF/CCX/xPrfCcx.c:529-596 | the status, and in the buffer exactly the records of the dies that can be queried; the rest of it is untouched |
| Crat.CheckSuffices | xPRF/CCX/xPrfCcx.c:561-567 | the size check leaves room for all records if the sockets have no more dies than the system |
| Crat.RecordsAreRuns | xPRF/CCX/xPrfCcx.c:573-590 | the dies fall into runs that start at the first die, at a change of domain and at every die of domain 0; each record holds the domain and APIC id of the first die of its run and the threads of all of them modulo 2^16 |
| Crat.ThreadProduct | xPRF/CCX/xPrfCcx.c:588-589 | what is added for a die is the product of its CCDs, complexes, cores and threads |
| Crat.CoresWrap | xPRF/CCX/xPrfCcx.c:588-589 | each record's counter is the number of threads of its dies modulo 2^16 |
| Crat.ExactConserved | xPRF/CCX/xPrfCcx.c:569-593 | no die is lost or counted twice |
| Crat.ConservedIff | xPRF/CCX/xPrfCcx.c:569-593 | the counters account for every thread if and only if no run of dies overflows 16 bits |
| Crat.OverflowExample | xPRF/CCX/xPrfCcx.c:588-589 | a die with 2^16 threads is counted as 0 |
| Crat.NoStrayIff | xPRF/CCX/xPrfCcx.c:586-589 | what is added is at least the threads of the dies whose topology is known, and exactly that if and only if no query fails while the counts left by an earlier die are nonzero |
| Crat.StrayExample | xPRF/CCX/xPrfCcx.c:586-589 | a die whose query fails is counted with the threads of the die before it |
| Crat.NodesAreDomains | xPRF/CCX/xPrfCcx.c:574-584 | the records name exactly the domains of the dies |
| Crat.DistinctIff | xPRF/CCX/xPrfCcx.c:574-584 | each domain has one record if and only if its dies are adjacent and domain 0 has at most one die |
| Crat.DomainZeroExample | xPRF/CCX/xPrfCcx.c:574 | two dies in domain 0 give it two records |
| BitUtils.LowBitSet32 | xUSL/CommonLib/Utils.c:81-89 | the lowest set bit, -1 for 0 |
| BitUtils.HighBitSet32 | xUSL/CommonLib/Utils.c:104-112 | the highest set bit, -1 for 0; one less than the width |
| BitUtils.BitWidth | xUSL/CommonLib/Utils.c:125-132 | the width of a 64-bit value, so HighBitSet32 + 1 on every 32-bit value |
| BitUtils.GetSetBitCount | xUSL/CommonLib/Utils.c:141-149 | the number of one bits |
| BitUtils.ClearLowest | xUSL/CommonLib/Utils.c:144-147 | v & (v - 1) has one bit less and is smaller |
| BitUtils.AndBit | xUSL/CommonLib/Utils.c:144-147 | the bitwise and used there acts bit by bit |
| BitUtils.HighestBit | xUSL/CommonLib/Utils.c:104-112 | the width names the highest set bit |
| BitUtils.WidthBelow | xUSL/CommonLib/Utils.c:125-132 | a width of at most n means a value below 2^n |

## Left out

- AmdTable.Machine.SetRegistersFromTable: only tables that parse are run. Entry types 10 to 12 and unknown types are excluded: the dispatch array has no matching handler for them and an unknown type never advances the cursor.
- AmdTable.Machine.SetSmnMultiEntry: requires that the 32-bit index leaves its range; StopsIff shows that the loop of the source does not end exactly otherwise.
- AmdTable.Machine.SetSmnTableEntry: SMN accesses to a die that does not exist and a missing data-fabric interface are not modelled.
- InfoBlocks.CreateRepresents: requests of 2^64 - 16 bytes and more are excluded; RequestSizeFits shows that the size computation wraps exactly there.
- SilHeap.Heap.AssignMemoryTp1: requires a memory size whose low 32 bits cover the variables; Tp1Accounting shows that the accounting is wrong exactly otherwise.
- SilHeap.Heap.GetApi: requires an identifier in range, which the source does not check.
- Sizing.QueryMemoryRequirements: sums on unbounded integers; the 32-bit counters enter in SizingNeeds32Bits.
- DeferredReset.Initializer.InitializeIps: the outcomes of the IPs are given in advance; None is returned if they run out while the source would go on.
- PcieTopology.AllEngines: the callbacks are recorded and not run; that they might change the topology is not modelled.
- PcieBuild.Topology.Build: all complexes lie in memory from the start, while the source copies each one in before it attaches it. Every complex has a silicon, a wrapper and a PCIe engine, and there is at least one complex; the fields outside the descriptor headers are not modelled.
- PcieSilicons.WrappersOfAllSilicons: takes every silicon; the callers of the walk (xUSL/Mpio/Common/MpioCfgPoints.c:131-142) take those of one socket.
- Apob.Library.GetEntryInstance: requires an APOB whose records have positive sizes and at most 255 matches, neither of which the source checks.
- CpuMap.CollectCpuMap: memory is an array of entries; the bytes of an entry are not modelled. Requires at most 255 sockets, as the 8-bit socket counter can count. The die counter (xPRF/RAS/xPrfRas.c:170) has 8 bits too: for a socket of more than 255 dies the source does not end, while the model does.
- DimmPresence.BuildMemoryInfoData: only the presence map; the other fields of the memory summary are copies. The memory given starts at the map and has at least two words, since the source writes both; StaysInsideIff says when the second lies behind the map. The bits of all channels must lie in the 32-bit word, as the shifts of the source need.
- LowDram.GetLowUsableDramAddress: up to 255 holes, since the 8-bit counter of the source does not end beyond that.
- Crat.GetCratHsaProcInfo: requires that the records fit the buffer once the size check passes, which the source does not ensure by itself; CheckSuffices gives a condition on the die counts.
- Assertions of the source are read as doing nothing, and trace output is left out.
- Register access, PCI, MMIO and SMN transport, P-states and the resource manager: thin hardware access or not shown.
- CopyBitField and SMU index entries of register tables, and the wrapper that runs tables at a time point.
- SRAT, SMBIOS type 17 and 19, the CRAT cache entries and the MCA error collection: fixed formulas or more loops of the kinds already modelled.
- Debug dumps of topology and memory summary, the socket iterator of the topology helper, and the configuration scripts.
