# Verified cores of coreboot

This project models the platform-independent logic of coreboot whose correctness is not visible from any one function,
and proves what that logic is for. Every statement below is for all inputs, all runs or all reachable states. Code that
works by changing memory is modelled by methods over arrays and objects, each proved against a specification whose own
properties are then proved as lemmas.

| part | files | main results |
|---|---|---|
| Best rational approximation | `Rational` | `RationalBestApproximation` |
| Resource allocation | `Arith`, `MemRange`, `ResourceTree`, `Largest`, `Window*`, `Placement`, `Nesting`, `DomainTree`, `SafeAllocation`, `ResourceAllocator` | `AllocateResources`, `RunVisitsEachOnce`, `ExactWindow` |
| Resource structures | `ResourceList` | `NewResource`, `Serve`, `GivenOutAgain` |
| Flattened devicetrees | `Fdt*`, `TreeSearch` | `RoundTrip`, `FdtFindNode`, `FlattenIsInjective` |
| Devicetree overlays | `TreeMerge`, `OverlayPhandles`, `OverlayFixups`, `DtOverlay` | `MergeIsOverride`, `LocalReferencesFollow`, `RenumberingIsFresh` |
| AML generation | `PkgLength`, `AcpiGen`, `AcpiRuns`, `AcpiPointers`, `AcpiFields` | `GenerateCalls`, `ItemsReadBack`, `PlacedAsStated` |
| FSP relocation | `Fsp*` | `FspComponentRelocate`, `RelocateTwice`, `ThereAndBack`, `TeIsStripped` |
| PCI bus numbering | `PciScan` | `ScanHostBridge` |
| Bit-banged I2C | `SoftwareI2c` | `TransferFromIdle`, `TransferToSlave` |
| Formatted output | `Number`, `Printf`, `Vsnprintf`, `FormatText` | `DirectiveInText`, `TextReadsBack`, `VsnPrintf` |
| Quicksort | `QuickSort` | `EndsExactlyOnDistinctKeys`, `Quicksort` |

`Buffers` holds what byte buffers have in common.

## How the parts are built

- **Rational.** The loop keeps two neighbouring convergents. Nothing within the bounds lies between neighbours, so the
  closer of the previous convergent and the largest semiconvergent is best. Unsigned long is modelled with its width: no
  intermediate product wraps but `2u * t`.
- **Resource allocation.** Resources are records in a store, found through a tree of devices. Pass 1 is proved to lay out
  every window (`Computed`), the domain level to place what it can (`TopPlaced`, `TopFull`), and the descent to hold
  every window's content inside it (`PlacedTree`). `RunIsSafe` puts the four stores of a run together. The free list is
  the algorithm of `src/lib/memrange.c`, not a contract for it.
- **Resource structures.** The pointers are real. `Spells` says that they spell lists that end, do not meet, have no
  index twice and together hold every structure.
- **Flattened devicetrees.** `NodeAt` relates a structure block to the tree it spells. The parsers, the skipper and the
  search are proved against that relation on a byte sequence; the writer fills an array at two cursors. `FdtBytes`
  says of every number, token and name of the format which bytes it is.
- **Overlays.** Trees are values. Renumbering, fixups and merging are compared with the tree by path and property name,
  so the results speak about what a reference names.
- **AML.** `Generator` is the buffer with its stack of saved pointers. Frames are what lies between two saved pointers;
  closing a package moves the payload down behind its length. A store through a pointer that was kept is proved to be the
  same as having emitted that value earlier, so runs with counts filled in later have the meaning of runs without stores.
- **FSP relocation.** The image determines its control fields and its sites (`Everything`). Every change is an addition at
  a site. Images that agree on control fields have the same sites, so runs compose. `FspStripped` compares a TE image with
  the PE image it was made from; `FspExample` lists the sites of whole images byte by byte.
- **PCI bus numbering.** One object holds every bridge's registers. The scan's state says which bridges are open, and
  configuration accesses are routed by the programmed ranges.
- **I2C.** The two lines are recorded edge by edge. A receiver that knows only the standard decodes the record. The slave is
  what it replies in each clock pulse; `TransferTaken` says, of those replies alone, when it goes along with a transfer.
- **Formatted output.** `Formatted` is the text of a format; `ReadNumber` reads a number from text as `strtol` would.

## What turned out otherwise than documented

- `rational_best_approximation` stays within the bounds exactly if the denominator's is not 0 and a numerator bound of 0
  does not meet the inputs of `ZeroBoundMissed` (1/2 with bounds 0 and 3 gives 1/3). Within the bounds it is best exactly if
  `2u * t` does not wrap, which takes bounds above half the type's range and a fraction near 0 or 1 of a few shapes
  (`Outcome`, `DoublingWraps`, `WrapWitness`, `ZeroBoundWitness`).
- `fdt_next_property` looks at the word before it skips NOPs, so a property behind a NOP is lost.
- `fdt_find_node` gathers the cell counts of the nodes above the one it finds, `dt_find_node` those of the node found as well
  (`CellsOfFound`).
- `dt_adjust_all_phandles` hides the failure of every node but the root: the maximum it returns is 0 exactly if a property of
  the root is at fault (`HiddenFailure`, `HiddenFailureExample`). A local fixup that is listed twice is applied twice
  (`ListedTwice`).
- `acpigen_write_field` drops an offset that lies behind but takes it as the new position (`BackwardOffsetExample`), and its
  32-bit position starts again behind 2^32 bits (`CounterWrapExample`).
- `software_i2c_transfer` reports success exactly if the slave goes along up to the last acknowledgement and lets the clock rise
  once more; whether there is a STOP depends on SDA in that last pulse, which success does not look at
  (`TransferFromIdle`). For every transfer there are a slave with which it succeeds with a STOP and one with which it
  succeeds without (`TransferToSlave`). After an error it leaves the bus busy.
- `quicksort` never ends on equal keys (`EndsExactlyOnDistinctKeys`).
- `fsp_component_relocate` that fails in a volume has moved executables but not the header's base address, so repeating
  it moves them again (`FailedRunRepeats`, `RepeatExample`). A wrong header signature leaves PE images alone and everything
  else is moved.
- `new_resource` gives out a structure that is on the device's list with flags still zero, exactly if there is one and no
  structure in use has the index (`GivenOutAgain`); two requests in a row get the same structure (`AskTwice`).
- `pci_bridge_route` adds bus number and hotplug count in 16 bits; a bridge opened with a sum that wraps ends before it
  begins (`OpenKeepsOrder`).

## Model


| member | source | states |
|---|---|---|
| Rational.RationalBestApproximation | src/commonlib/rational.c:17-95 | For every input of the type's width: with denominator 0 the answer is 1/0; otherwise it is in lowest terms, within the bounds exactly if the denominator's is not 0 and ZeroBoundMissed does not hold of the arguments, and, within the bounds, no fraction within them is strictly closer exactly if 2 * t does not wrap; where it goes wrong the answer is known |
| Rational.Neighbours | src/commonlib/rational.c:54-60 | When the sum of two neighbours leaves the bounds, every fraction within the bounds is at least as far from the input as one of the two |
| Rational.BreakIsBest | src/commonlib/rational.c:68-86 | In the round that leaves the bounds, the comparison made in the source picks the closest of all fractions within the bounds |
| Rational.IntermediatesFit | src/commonlib/rational.c:50-86 | No product formed in a round exceeds the input, so only 2 * t can wrap |
| Rational.WrapsExactly | src/commonlib/rational.c:71-83 | In the round that leaves the bounds the doubled term wraps exactly on the inputs that DoublingWraps describes |
| Rational.WrapWitness | src/commonlib/rational.c:81-83 | 1/(2^64 - 1) with both bounds 2^63 + 5: the call gives 0/1 although 1/(2^63 + 5) is within the bounds and strictly closer |
| Rational.ZeroBoundWitness | src/commonlib/rational.c:68-86 | 1/2 with bounds 0 and 3: the call gives 1/3, which is out of bounds, although 0/1 is not |
| Rational.ExactWhenRepresentable | src/commonlib/rational.c:17-33 | A best answer is exact whenever some fraction within the bounds equals the input |
| Largest.LargestResource | src/device/resource_allocator_common.c:13-61 | One traversal gives the resource that follows the caller's last one in descending (alignment, size) with ties in traversal order, never a fixed one, and none if none is left |
| Largest.RunVisitsEachOnce | src/device/resource_allocator_common.c:13-61 | Feeding each answer back in visits every matching resource that is not fixed exactly once, in descending order |
| Largest.RemainingShrinks | src/device/resource_allocator_common.c:44-61 | Each answer leaves fewer resources to come, so the callers' loops end |
| MemRange.MemRanges.Insert | src/lib/memrange.c:210-239 | Adds exactly the block, rounded outward, to the free addresses; entries stay sorted and merged |
| MemRange.MemRanges.CreateHole | src/lib/memrange.c:210-233 | Takes exactly the block, rounded outward, out of the free addresses; entries stay sorted |
| MemRange.MemRanges.RemoveMemranges | src/lib/memrange.c:94-158 | Removes exactly the block, cutting and splitting entries |
| MemRange.MemRanges.MergeNeighborEntries | src/lib/memrange.c:64-92 | Joins entries that touch without changing what is free |
| MemRange.MemRanges.FindEntry | src/lib/memrange.c:381-415 | Finds the first entry with an aligned block below the limit, and fails only if no entry has one |
| MemRange.MemRanges.Steal | src/lib/memrange.c:417-440 | Gives an aligned free block that ends at or below the limit and takes it out; fails exactly if there is no such block anywhere |
| MemRange.RoomFitsEntry | src/lib/memrange.c:381-415 | A wholly free block lies in a single entry, so the search by entries misses none |
| WindowLayout.PackedIsDisjoint | src/device/resource_allocator_v4.c:142-199 | Resources placed by the loop are aligned, below the cursor and pairwise disjoint, whatever their sizes |
| WindowLayout.NoPadding | src/device/resource_allocator_v4.c:142-199 | In descending alignment, sizes that are multiples of their alignment are placed without padding |
| WindowLoop.ExactWindow | src/device/resource_allocator_v4.c:142-199 | The window of such resources is the exact sum of their sizes rounded up to the granularity |
| ResourceAllocator.Allocator.UpdateBridgeResource | src/device/resource_allocator_v4.c:121-202 | The resources behind a bridge get aligned disjoint offsets inside the window, whose size, alignment and limit are what they need together; nothing else changes |
| ResourceAllocator.Allocator.ComputeBridgeResources | src/device/resource_allocator_v4.c:209-240 | Every window of the type in the whole subtree is laid out, each after everything below it |
| ResourceAllocator.Allocator.ComputeDomainResources | src/device/resource_allocator_v4.c:257-275 | The same for the three kinds of windows under every bridge of the domain, none disturbing another |
| WindowTree.UpdateKeepsBelow | src/device/resource_allocator_v4.c:209-240 | Laying out a bridge's window does not disturb the windows further down |
| ResourceAllocator.Allocator.AvoidFixedResources | src/device/resource_allocator_v4.c:288-310 | Punches out exactly the addresses of the fixed resources of the kind in the whole tree |
| ResourceAllocator.Allocator.SetupResourceRanges | src/device/resource_allocator_v4.c:321-356 | What is free is exactly what the domain's windows of the kind offer less all fixed resources and, for io, the VGA block |
| ResourceAllocator.Allocator.AllocateToplevelResources | src/device/resource_allocator_v4.c:390-419 | Every resource of the domain bus is placed aligned, within its effective limit, on free addresses and disjoint from the others, or there really is no place left for it |
| ResourceAllocator.Allocator.AssignBehind | src/device/resource_allocator_v4.c:433-440 | Every resource of a window's type behind the bridge that asks for space gets the window's base added once, all others keep everything |
| ResourceAllocator.Allocator.AllocateBridgeResources | src/device/resource_allocator_v4.c:441-470 | Below placed windows every resource is placed inside its window all the way down; below others none is |
| ResourceAllocator.Allocator.AllocateDomainResources | src/device/resource_allocator_v4.c:485-507 | The io run and the mem run together, followed by every bridge of the domain |
| ResourceAllocator.Allocator.AllocateResources | src/device/resource_allocator_v4.c:545-579 | After both passes: every resource placed by the run is aligned, ends within the effective limit it had before, lies on offered addresses that no fixed resource takes, and is disjoint from all others of its space but its ancestors and descendants, inside which it lies; what asks for space is placed whenever the window above it is; what was left out at the top cannot fit |
| SafeAllocation.RunIsSafe | src/device/resource_allocator_v4.c:545-579 | The same guarantee as a statement about the four stores of any run |
| SafeAllocation.LivePairs | src/device/resource_allocator_v4.c:371-507 | Two placed resources of one space are disjoint unless one is a window above the other |
| SafeAllocation.LeftOutCannotFit | src/device/resource_allocator_v4.c:390-419 | For a resource of the domain bus without a place, every aligned block within its limit meets an address not offered, fixed or taken |
| SafeAllocation.PlacedWithinLimit | src/device/resource_allocator_v4.c:94-109 | After a run: a placed bridge window, and everything else where all may go above 4 GiB, ends at or below its own limit; otherwise a resource that is neither 64-bit nor larger than 4 GiB ends at or below its limit, and below 4 GiB unless it is flagged for more; nothing ends above 2^64 |
| SafeAllocation.LeftOutBelowLimit | src/device/resource_allocator_v4.c:94-109 | A resource of the domain bus is left out only if every aligned block below its limit meets an address not offered, fixed or taken: below its own limit for a bridge or where all may go above 4 GiB, below 2^64 for a 64-bit one or one larger than 4 GiB whatever its limit, else below its own limit and 4 GiB |
| SafeAllocation.PlacedAligned | src/device/resource_allocator_v4.c:371-419 | What a run places is io or memory and a multiple of two to the power of its alignment |
| DomainTree.AllowedIo | src/device/resource_allocator_v4.c:288-356 | Of the io space a domain hands out the addresses from base to limit of its io windows, but not 0x3b0 to 0x3df nor what a fixed io resource takes |
| DomainTree.AllowedMem | src/device/resource_allocator_v4.c:288-356 | Of memory it hands out the pages of 4 KiB its memory windows touch, but no page that a fixed memory resource touches |
| Nesting.UnderPlaced | src/device/resource_allocator_v4.c:433-470 | Everything behind an assigned window, through any number of bridges, is assigned inside it |
| DomainTree.TopSkip | src/device/resource_allocator_v4.c:390-419 | The top-level loop passes a resource over only if it asks for nothing or there is no room |
| FdtFormat.NodeUnique | src/commonlib/device_tree.c:659-705 | A structure block has at most one tree and one end (section 5.4 of the Devicetree Specification) |
| FdtBytes.WordIsBigEndian | src/commonlib/device_tree.c:126-131 | A number in a blob has its most significant byte first |
| FdtBytes.EncodedIsBigEndian | src/commonlib/device_tree.c:861-886 | A number that is written has its quotient by 2^24 as first byte and its remainder by 2^8 as last |
| FdtBytes.Tokens | src/commonlib/device_tree.c:105-114 | The tokens are the bytes 0 0 0 1 for the begin of a node, 2 for its end, 3 for a property, 4 for a NOP and 9 for the end |
| FdtBytes.RecordBytes | src/commonlib/device_tree.c:126-139 | A property record that is read: token, number of bytes, place of the name, bytes |
| FdtBytes.PropertyBytes | src/commonlib/device_tree.c:861-886 | A property that is written: the same, padded to four bytes |
| FdtBytes.NodeBytes | src/commonlib/device_tree.c:888-916 | A node that is written begins with its token and its name, ended by a zero byte, and ends with its end token |
| FdtReader.FdtSkipNops | src/commonlib/device_tree.c:105-114 | The first offset at or behind the given one that holds no NOP |
| FdtReader.FdtNextProperty | src/commonlib/device_tree.c:116-142 | Gives a property exactly if the word at the offset itself is a PROP token, with its name, data and total size; a NOP in front hides it |
| FdtReader.FdtNextNodeName | src/commonlib/device_tree.c:153-167 | Finds a name behind NOPs, with a size that leaves the NOPs out |
| FdtReader.FdtSkipNode | src/commonlib/device_tree.c:172-192 | On a well-formed block without NOPs, gives exactly the size of the node, 0 where there is none |
| FdtReader.FdtUnflattenNode | src/commonlib/device_tree.c:659-705 | Gives the node that the block spells, with phandles and the highest one, and the same size as skipping it |
| FdtReader.FdtReadCellProps | src/commonlib/device_tree.c:248-261 | The cell counts of the node's properties, the last one winning, and the offset behind them |
| FdtReader.FdtFindNode | src/commonlib/device_tree.c:279-307 | Lands on the node that a search of the unflattened tree finds, or both find none; the cell counts gathered on the way are those of the nodes above it |
| TreeSearch.DtReadCellProps | src/commonlib/device_tree.c:1030-1040 | The cell counts of the node's properties, the last one winning |
| FdtBytes.AddressCellsByName | src/commonlib/device_tree.c:248-261 | The address count is the first cell of the last property called #address-cells, and stays what it was without one or without a pointer |
| FdtBytes.SizeCellsByName | src/commonlib/device_tree.c:1030-1040 | The size count is the first cell of the last property called #size-cells, and stays what it was without one or without a pointer |
| FdtBytes.CellsOnPath | src/commonlib/device_tree.c:1056-1090 | A search gathers what one reading of all properties on its way gives, so the last of a name on the path wins |
| FdtBytes.PhandleNames | src/commonlib/device_tree.c:659-705 | Phandles are the first cells of properties called phandle or linux,phandle |
| TreeSearch.DtFindNode | src/commonlib/device_tree.c:1056-1090 | Finds the node on the path, with the cell counts of the nodes down to it, its own included, each count only if a pointer for it is given; with create, what is missing is added in front of its siblings |
| TreeSearch.CellsOfFound | src/commonlib/device_tree.c:279-307 | The two searches' cell counts differ by those of the node found, so they agree exactly if none is found or reading its own counts changes nothing |
| TreeSearch.CreatedKeeps | src/commonlib/device_tree.c:1056-1090 | What could be found before creation is found after it, the same but for new children |
| TreeSearch.CreatedAddsOnlyPath | src/commonlib/device_tree.c:1056-1090 | Everything new lies on the path and is empty |
| TreeSearch.CreatedIsFound | src/commonlib/device_tree.c:1056-1090 | The path that was created is found |
| FdtWriter.DtFlatNodeSize | src/commonlib/device_tree.c:790-824 | The running counters grow by exactly the bytes the node needs in each block |
| FdtWriter.DtFlattenProp | src/commonlib/device_tree.c:861-886 | Writes the record and the name at the two cursors and nothing else |
| FdtWriter.DtFlattenNode | src/commonlib/device_tree.c:888-916 | Writes exactly the bytes that spell the node at the two cursors, and moves each past its own |
| FdtBlob.FdtUnflattenMapEntry | src/commonlib/device_tree.c:707-723 | Reads one reserve entry; one of size 0 ends the map |
| FdtBlob.DtFlattenMapEntry | src/commonlib/device_tree.c:853-859 | Writes one reserve entry, big-endian |
| FdtBlob.FdtUnflatten | src/commonlib/device_tree.c:725-782 | Accepts exactly the blobs that begin with the bytes d0 0d fe ed and whose last compatible version is at most 17, and gives the tree, the reserve map and the header that the blob spells |
| FdtBlob.BlobBytes | src/commonlib/device_tree.c:725-782 | The structure block is where the number at 8 says, the strings block where the one at 12 says, and the reserve map where the one at 16 says; the header is all in front of them |
| FdtBlob.EntryBytes | src/commonlib/device_tree.c:707-723 | A reserve entry is a start and a size of eight bytes, most significant byte first |
| FdtFlatten.DtFlatSize | src/commonlib/device_tree.c:826-845 | The size of header, reserve map, structure and strings |
| FdtFlatten.DtFlatten | src/commonlib/device_tree.c:918-952 | Fills exactly the flat size: the structure block begins with the bytes 0 0 0 1 and ends with 0 0 0 2 0 0 0 9, blocks abut, and nothing behind them is touched |
| FdtFlatten.FlattenedBytes | src/commonlib/device_tree.c:918-952 | The header has total size, structure and strings offsets, strings size and structure size at 4, 8, 12, 32 and 36, most significant byte first |
| FdtFlatten.FlattenedIsBlob | src/commonlib/device_tree.c:918-952 | What is written is a blob that spells the tree (sections 5.2 to 5.5 of the Devicetree Specification) |
| FdtFlatten.RoundTrip | src/commonlib/device_tree.c:748-952 | Flattening into any buffer and unflattening gives the tree back: names, properties in order with their bytes, children in order, phandles, reserve map |
| FdtFlatten.FlattenIsInjective | src/commonlib/device_tree.c:826-952 | Different trees have different blobs |
| TreeMerge.MergeIsOverride | src/commonlib/device_tree.c:1894-1949 | At every path: what only one tree has is there unchanged; where both have the node, each property is overridden as upd says and phandle, linux,phandle and name never are |
| TreeMerge.MergedPropertiesLookup | src/commonlib/device_tree.c:1894-1930 | With upd the source value wins wherever present, without it the destination's does |
| TreeMerge.IllegalNames | src/commonlib/device_tree.c:1898-1906 | What is never copied is called phandle, linux,phandle or name |
| TreeMerge.DtCopyProperties | src/commonlib/device_tree.c:1894-1930 | The loop over properties computes that override |
| TreeMerge.DtCopySubtree | src/commonlib/device_tree.c:1894-1949 | The destination becomes the merge of the two trees |
| OverlayPhandles.DtAdjustPhandle | src/commonlib/device_tree.c:1622-1640 | A phandle property gets base added unless illegal, or 0 is returned; other properties are not touched |
| OverlayPhandles.AdjustedBytes | src/commonlib/device_tree.c:1622-1640 | The number is the four bytes at the offset, most significant first; 0, 0xdeadbeef and 0xffffffff are unusable, and so is a sum of 0 or from 0xdeadbeef on; else the sum modulo 2^32 is what the bytes spell afterwards |
| OverlayPhandles.DtAdjustAllPhandles | src/commonlib/device_tree.c:1650-1672 | The subtree after renumbering and its maximum; 0 only says something of this very node |
| OverlayFixups.DtFixupLocals | src/commonlib/device_tree.c:1683-1737 | Base is added at the listed offsets of the listed properties of the whole subtree one after the other, and it fails exactly if one of these steps does, whatever the lists hold |
| OverlayFixups.FixNodeExactly | src/commonlib/device_tree.c:1683-1737 | Where each name and reference is listed once, it succeeds exactly if every fixup has its place and every place a usable number, and base has then been added exactly there |
| OverlayFixups.ListedTwice | src/commonlib/device_tree.c:1709-1723 | A reference that is listed twice is moved twice |
| OverlayFixups.AdjustedAtReads | src/commonlib/device_tree.c:1709-1723 | Adding at an offset changes the number read there and no other |
| DtOverlay.DtRelocateOverlay | src/commonlib/device_tree.c:2015-2039 | dt_apply_overlay up to the local fixups, whatever they list: it succeeds exactly if they can all be applied one after the other, and the overlay is then the renumbered tree with them applied and the new maximum is reported |
| DtOverlay.PhandlesMove | src/commonlib/device_tree.c:1622-1672 | Renumbering moves every phandle up by base and reports the highest |
| DtOverlay.RenumberingIsFresh | src/commonlib/device_tree.c:2015-2039 | The renumbered overlay shares no phandle with the base tree, and the new maximum bounds both |
| DtOverlay.PhandlesStayDistinct | src/commonlib/device_tree.c:1622-1672 | Two nodes share a phandle after relocation exactly if they did before |
| DtOverlay.LocalReferencesFollow | src/commonlib/device_tree.c:1683-1737 | A listed reference names a node of the overlay after relocation exactly if it named that node before |
| DtOverlay.UnlistedStays | src/commonlib/device_tree.c:1683-1737 | A number that is not listed keeps its value |
| DtOverlay.HiddenFailure | src/commonlib/device_tree.c:1650-1672 | The maximum returned is 0 exactly if a property of the root has an unusable phandle, so it tells of the whole tree exactly if the root is at fault or no node below it is |
| DtOverlay.HiddenFailureExample | src/commonlib/device_tree.c:1650-1672 | A root without phandles over a child whose phandle is 0: the call reports the usual maximum, not 0 |
| PkgLength.LengthRoundTrip | src/acpi/acpigen.c:35-89 | Every encoded length decodes to itself (section 20.2.4 of ACPI 6.4) |
| PkgLength.PayloadIsFound | src/acpi/acpigen.c:35-89 | A reader that trusts the length finds the payload and what follows it |
| PkgLength.PkgLengthIsMinimal | src/acpi/acpigen.c:35-89 | No shorter length field can describe the same package |
| AcpiGen.Generator.constructor | src/acpi/acpigen.c:20-23 | Nothing written, no package open |
| AcpiGen.Generator.EmitByte | src/acpi/acpigen.c:101-104 | One byte behind what was written, in the innermost open package |
| AcpiGen.Generator.EmitStream | src/acpi/acpigen.c:237-242 | The bytes in order, in the innermost open package |
| AcpiGen.Generator.WriteLenF | src/acpi/acpigen.c:25-33 | Opens a package: an empty frame with room for the longest length |
| AcpiGen.Generator.PopLen | src/acpi/acpigen.c:35-89 | Closes the innermost package: its payload ends up behind the shortest length that fits, or behind zeros if too long, in the frame around it; outer frames do not move |
| AcpiGen.Generator.WritePackage | src/acpi/acpigen.c:126-134 | The operator 12, open length and count; the pointer to the count names that byte of the new frame |
| AcpiGen.Generator.StoreAt | src/acpi/acpigen.c:126-134 | A store through a kept pointer changes that byte of that frame only |
| AcpiGen.Generator.WriteResourcetemplateHeader | src/acpi/acpigen.c:1222-1238 | A buffer 11 with an open length, the prefix 0b, and a place for the resource word |
| AcpiGen.Generator.WriteResourcetemplateFooter | src/acpi/acpigen.c:1240-1262 | End tag, the word with the number of bytes, and the buffer closed around them |
| AcpiGen.TemplateBytes | src/acpi/acpigen.c:1240-1262 | The two innermost frames become one package: what the outer held, the number of bytes in two, the resources, and the end tag 79 00 |
| AcpiRuns.SpelledByRun | src/acpi/acpigen.c:25-89 | The tree of a run is spelled by exactly that run |
| AcpiRuns.RunHasTree | src/acpi/acpigen.c:25-89 | Every well-bracketed run of open, emit and close is the run of a tree |
| AcpiRuns.RunEncodes | src/acpi/acpigen.c:25-134 | After any run each open frame holds the recursive encoding of what was spelled in it |
| AcpiRuns.RunOps | src/acpi/acpigen.c:25-134 | The calls of any bracketed run, from any state, do to the buffer what the run means |
| AcpiRuns.Generate | src/acpi/acpigen.c:25-134 | A well-bracketed run leaves exactly the recursive encoding of its tree, with minimal lengths |
| AcpiRuns.OuterFramesStay | src/acpi/acpigen.c:35-89 | A bracketed run changes none of the outer frames and only adds to its own |
| AcpiRuns.PointersStay | src/acpi/acpigen.c:35-134 | Saved pointers into frames that were open stay good across inner closes |
| AcpiRuns.ItemsReadBack | src/acpi/acpigen.c:25-134 | Following the package lengths recovers every nested payload |
| AcpiPointers.StoreIsEmit | src/acpi/acpigen.c:126-134 | A store through a kept pointer, at any time before a package around that byte is closed, leaves every frame as emitting the stored value in the first place would have |
| AcpiPointers.RunCalls | src/acpi/acpigen.c:25-134 | Any run of open, emit, close, store and increment, from any state, leaves what the run without stores leaves that emits the final values at once; kept pointers into open packages stay good |
| AcpiPointers.BracketedIsProper | src/acpi/acpigen.c:25-134 | Every bracketed run without stores is one of them and means itself |
| AcpiPointers.GenerateCalls | src/acpi/acpigen.c:25-134 | A whole such run leaves the recursive encoding of a tree in which every byte has its last value |
| AcpiPointers.CountIsBumps | src/acpi/device.c:800-820 | An element count that is incremented per element ends as its first value plus the number of increments, in eight bits |
| AcpiFields.WriteFieldLength | src/acpi/acpigen.c:538-560 | The bytes of the length, in the form of section 20.2.4 of ACPI 6.4, for every length below 2^28 |
| AcpiFields.WriteFieldOffset | src/acpi/acpigen.c:562-580 | A reserved field from the current bit to the offset; nothing if the offset is behind |
| AcpiFields.SegBytes | src/acpi/acpigen.c:273-284 | A name is cut after four characters or before a dot and filled up with underscores |
| AcpiFields.WriteField | src/acpi/acpigen.c:616-651 | The operator 5b 81 and a package around the region's name, the flags and the encoding of the list, for a position counted in 32 bits |
| AcpiFields.FieldsReadBack | src/acpi/acpigen.c:616-651 | A reader that sums the widths finds every named field where the list puts it, shifted by the offsets left out before it |
| AcpiFields.PlacedAsStated | src/acpi/acpigen.c:562-651 | The fields are where the list states them exactly if no name follows offsets that left the position wrong without cancelling: ones that lie behind, or come after the 32-bit position has started again |
| AcpiFields.FieldsAreWhereStated | src/acpi/acpigen.c:562-651 | With non-decreasing offsets and widths below 2^28 every named field is where the list states it |
| AcpiFields.BackwardOffsetExample | src/acpi/acpigen.c:562-572 | A backward offset is dropped but taken as the position: the next field is not where the list states it |
| AcpiFields.CounterWrapExample | src/acpi/acpigen.c:616-651 | Behind 2^32 bits of reserved fields the offset 8 is written as a gap of 8 bits: the field ends up 2^32 bits too far |
| FspBytes.EditsCompose | src/commonlib/fsp_relocate.c:161-384 | Adding at the same places twice is adding once, when each pair of amounts adds up |
| FspBytes.EditReads | src/commonlib/fsp_relocate.c:161-384 | Every addition takes effect once and reads back as the sum in its width |
| FspRelocate.InfoHeader | src/commonlib/fsp_relocate.c:121-159 | Where the information header is, whether GUID and section type are right, and whether the signature is |
| FspRelocate.RelocateEntries | src/commonlib/fsp_relocate.c:244-271 | The numbers named by a block's entries are moved, up to the first entry of an unknown type, which is an error |
| FspRelocate.RelocateBlocks | src/commonlib/fsp_relocate.c:227-273 | Block after block of the relocation table, PE by entry count and TE by block size |
| FspRelocate.PeRelocate | src/commonlib/fsp_relocate.c:161-283 | A PE32 or PE32+ image with a signed information header is moved by the distance of the whole image, its own base last; anything else is left alone |
| FspRelocate.TeRelocate | src/commonlib/fsp_relocate.c:285-384 | A TE image's base is set to where the whole image puts it and its numbers are moved accordingly |
| FspStripped.EntryStripped | src/commonlib/fsp_relocate.c:303-366 | The number that a TE image's entry names by RVA v lies v less the stripped size behind the header of 40 bytes |
| FspStripped.TeIsStripped | src/commonlib/fsp_relocate.c:285-384 | For a TE image and the PE image it was stripped from, every entry of every block names the same RVA in both, one for one, and both end alike |
| FspStripped.TePointersFollow | src/commonlib/fsp_relocate.c:315-360 | Relocation keeps the distance of every number of a TE image from where the image is linked, so it points at the same RVA |
| FspStripped.PePointersFollow | src/commonlib/fsp_relocate.c:195-283 | The same for the numbers of a PE32 or PE32+ image, in 32 or 64 bits |
| FspStripped.RelocatedAlike | src/commonlib/fsp_relocate.c:161-384 | Corresponding numbers of the two images point at one RVA after relocation, each to any address, exactly if they did before |
| FspRelocate.FsppReloc | src/commonlib/fsp_relocate.c:89-107 | Where a patch entry points: low 24 bits, or backwards from 16 MiB at the end, or nowhere if no word fits |
| FspRelocate.RelocatePatches | src/commonlib/fsp_relocate.c:436-455 | Every patch entry that points inside moves its word; others are skipped |
| FspRelocate.RelocatePatchTable | src/commonlib/fsp_relocate.c:418-457 | A table that is not wholly inside is an error; else its entries are applied |
| FspRelocate.RelocateTables | src/commonlib/fsp_relocate.c:506-534 | The tables behind the information header are searched for the patch table |
| FspRelocate.RelocateRemainingItems | src/commonlib/fsp_relocate.c:460-534 | The header's base becomes the address and the patch table is applied; gives the header's offset or -1. A wrong signature does not stop it |
| FspRelocate.RelocateSections | src/commonlib/fsp_relocate.c:614-661 | Every section of a file; what the executables say about success is not looked at |
| FspRelocate.RelocateFiles | src/commonlib/fsp_relocate.c:585-662 | Every file of a volume; padding is skipped, empty space ends the volume, the first file is remembered |
| FspRelocate.RelocateFvh | src/commonlib/fsp_relocate.c:536-666 | A volume with the right signature, length and file system; gives its length or -1 |
| FspRelocate.RelocateVolumes | src/commonlib/fsp_relocate.c:668-688 | All volumes; an unparsed one is an error, and what was moved until then stays moved |
| FspRelocate.FspComponentRelocate | src/commonlib/fsp_relocate.c:668-692 | For every well-formed image: the buffer becomes the image relocated to the address, and the result is the header's offset or -1 |
| FspFrame.SameEverything | src/commonlib/fsp_relocate.c:161-692 | Images that agree on the control fields have the same sites |
| FspComposition.RelocateTwice | src/commonlib/fsp_relocate.c:161-692 | Relocating to an address below 4 GiB and then to another gives the same bytes as relocating straight there |
| FspComposition.OnlySitesChange | src/commonlib/fsp_relocate.c:161-692 | A byte that differs belongs to a relocation site or a base field |
| FspComposition.PlanStays | src/commonlib/fsp_relocate.c:161-692 | Volumes, files, sections, tables and sites are the same before and after |
| FspComposition.BaseIsAddress | src/commonlib/fsp_relocate.c:499-505 | The relocated image's information header gives the new address |
| FspComposition.TeIsLinkedHere | src/commonlib/fsp_relocate.c:317-327 | The relocated TE image is linked where the new address puts it |
| FspComposition.RelocatedIsConsistent | src/commonlib/fsp_relocate.c:285-384 | Relocation makes header and TE images agree about the address |
| FspComposition.ThereAndBack | src/commonlib/fsp_relocate.c:161-692 | Relocating a consistent image away and back restores every byte |
| FspComposition.FailedRunRepeats | src/commonlib/fsp_relocate.c:668-692 | If volumes end in an error or no information header is found, the header keeps the old address, so the same call again moves executables once more, exactly unless the distance is a full turn of every number |
| FspExample.SampleIsFound | src/commonlib/fsp_relocate.c:668-692 | A well-formed image with a PE32, a PE32+ and a TE image, 32-bit and 64-bit entries and patch entries counted from the front and from the end: these are the offsets and widths of all that is moved |
| FspExample.EntryExamples | src/commonlib/fsp_relocate.c:230-270 | Entries of each type in PE and TE images and the numbers they name, as offsets and widths |
| FspExample.PatchExamples | src/commonlib/fsp_relocate.c:89-107 | A patch entry counted from the front and one with bit 31, and the words they name |
| FspExample.SpecialFiles | src/commonlib/fsp_relocate.c:585-612 | Padding files hold nothing to move, and a file type of ff ends the volume |
| FspExample.LargeFile | src/commonlib/fsp_relocate.c:585-662 | Where a file's size is and where its first section begins, with and without the attribute for large files; the next file is at the next multiple of 8 |
| FspExample.LargeSection | src/commonlib/fsp_relocate.c:614-661 | Where a section's size and data are, with and without the extended header; the next section is at the next multiple of 4 |
| FspExample.FirstFileAt | src/commonlib/fsp_relocate.c:536-584 | The first file is behind the volume's header or behind its extended header, at a multiple of 8 |
| FspExample.TablesAt | src/commonlib/fsp_relocate.c:418-534 | Where a patch table's length, count and entries are, and how a table that is none is passed over |
| FspExample.RepeatExample | src/commonlib/fsp_relocate.c:668-692 | The same with a broken second volume: it is well-formed, and repeating the failed call changes it again |
| PciScan.ScanHostBridge | src/device/pci_device.c:1566-1695 | The scan dies exactly if the bus numbers needed do not fit; otherwise every bus was accessed under the number it keeps, every access was routed to its bus alone by eight-bit registers, and in the end the ranges are nested along ancestors, disjoint between siblings, with distinct secondaries |
| PciScan.BusScan.RouteScan | src/device/pci_device.c:1566-1626 | Opening: the bridge gets the next number and everything behind it, or the scan dies; the order is kept exactly if number and hotplug count do not wrap 16 bits |
| PciScan.BusScan.RouteFinal | src/device/pci_device.c:1600-1626 | Closing: the range shrinks to what was used and is programmed |
| PciScan.BusScan.ScanBridge | src/device/pci_device.c:1639-1667 | Open, scan behind, narrow; the ranges of finished siblings stay apart |
| PciScan.BusScan.ScanBus | src/device/pci_device.c:1639-1667 | Every bridge on the bus in turn |
| PciScan.OrderedRoutes | src/device/pci_device.c:1566-1626 | In every ordered state each ancestor's programmed range covers the bus being scanned and no finished sibling's does |
| PciScan.OpenKeepsOrder | src/device/pci_device.c:1572-1598 | Opening a bridge keeps the order exactly if its number and hotplug count fit 16 bits together |
| PciScan.NarrowKeepsOrder | src/device/pci_device.c:1600-1626 | Narrowing a bridge keeps the order |
| PciScan.ScanIsNumbered | src/device/pci_device.c:1566-1667 | When the scan is back at the root the ranges form a tree |
| PciScan.BusesNeeded | src/device/pci_device.c:1572-1598 | How many numbers a topology takes, spare ones for hotplug included, decides whether the scan dies |
| SoftwareI2c.I2cBus.StartCond | src/device/software_i2c.c:72-102 | SDA falls while SCL is high, from idle or for a repeated START |
| SoftwareI2c.I2cBus.StopCond | src/device/software_i2c.c:104-131 | Success exactly if the clock rises; then SDA rises while SCL is high exactly if the slave lets it go in that pulse, on which success does not depend |
| SoftwareI2c.I2cBus.OutBit | src/device/software_i2c.c:133-164 | SDA has the bit while SCL is high, or arbitration was lost |
| SoftwareI2c.I2cBus.InBit | src/device/software_i2c.c:166-191 | The bit is what SDA was while SCL was high |
| SoftwareI2c.I2cBus.OutByte | src/device/software_i2c.c:194-210 | Eight bits, most significant first, and the slave's answer |
| SoftwareI2c.I2cBus.InByte | src/device/software_i2c.c:212-231 | Eight bits of the slave, most significant first, and the answer asked for |
| SoftwareI2c.TransferSegment | src/device/software_i2c.c:241-254 | START, address and direction, and the bytes with their answers, the last byte read being refused one |
| SoftwareI2c.SoftwareI2cTransfer | src/device/software_i2c.c:233-259 | It succeeds exactly if the slave takes every bit, acknowledges and lets the clock rise in the pulses of the transfer; then the lines carried exactly the segments with the bytes the slave showed, and the STOP is there if the slave lets SDA go in the last pulse. On an error there is no STOP and the bus stays busy |
| SoftwareI2c.ReceiveSlot | src/device/software_i2c.c:194-231 | Nine clocked bits decode to a byte and its acknowledgement (section 3.1.5 of UM10204) |
| SoftwareI2c.TransferIsReceived | src/device/software_i2c.c:233-259 | The trace decodes to the segments, with the read bytes that were stored |
| SoftwareI2c.FramesSay | src/device/software_i2c.c:241-254 | Every frame begins with a byte that is odd exactly for a read and whose half is the slave's address, acknowledged; the bytes written or read follow, all acknowledged but the last one read |
| SoftwareI2c.TransferFromIdle | src/device/software_i2c.c:233-259 | From an idle bus: success exactly on the slave's replies of TransferTaken; decoding the trace then gives every segment, the first byte of each frame odd exactly for a read with the slave's address above, with the bytes the slave showed, and there is a STOP exactly if the slave lets SDA go in the one pulse after them |
| SoftwareI2c.SlaveCooperates | src/device/software_i2c.c:233-259 | For every transfer and either fate of its STOP there is a slave that goes along with it and shows the data |
| SoftwareI2c.TransferToSlave | src/device/software_i2c.c:104-131 | Every transfer succeeds with such a slave, with a STOP or, where it holds SDA, without one |
| Number.TextLength | src/console/vtxprintf.c:22-99 | The text has the larger of the width and sign, prefix and the larger of digits and precision |
| Number.TextReadsBack | src/console/vtxprintf.c:22-99 | For every value, base, width, precision and flags, reading the text gives the number back |
| Printf.CollectDigits | src/console/vtxprintf.c:63-74 | The digits of the magnitude, last one first |
| Printf.SendPieces | src/console/vtxprintf.c:76-98 | Padding, sign, prefix, zeros and digits in the order the flags ask for |
| Printf.PrintNumber | src/console/vtxprintf.c:22-99 | Sends exactly that text and returns its length |
| Vsnprintf.ReadFlags | src/console/vtxprintf.c:124-134 | All flag characters, in any order and number |
| Vsnprintf.SkipAtoi | src/commonlib/bsd/string.c:56-65 | The decimal number that starts here, and where it ends |
| Vsnprintf.SendString | src/console/vtxprintf.c:194-209 | At most precision bytes of the string, padded to the width on the side asked for |
| Vsnprintf.SendInteger | src/console/vtxprintf.c:238-286 | The text of the argument in the base and width of the conversion |
| Vsnprintf.ConversionReadsBack | src/console/vtxprintf.c:265-286 | A conversion shows every value that its argument type can hold |
| Vsnprintf.ReadWidth | src/console/vtxprintf.c:136-148 | A number, or an argument whose sign asks for the left side |
| Vsnprintf.ReadPrecision | src/console/vtxprintf.c:150-164 | A number or an argument behind a dot, 0 if missing or negative |
| Vsnprintf.ReadQualifier | src/console/vtxprintf.c:166-179 | One letter and an l or h or both behind it, whatever the first was |
| Vsnprintf.SendConversion | src/console/vtxprintf.c:184-286 | The text of one directive, and the arguments it takes |
| Vsnprintf.Vtxprintf | src/console/vtxprintf.c:101-289 | For every format and arguments, what is sent is the text of the format: plain bytes, and each directive with its flags, width, precision and argument; the result is the number of bytes |
| Vsnprintf.PlainText | src/console/vtxprintf.c:118-122 | A format without directives is sent as it is |
| Vsnprintf.NumberInText | src/console/vtxprintf.c:101-289 | A bare integer directive behind plain text shows that text and then a number that reads back as the argument, in base 16 for x and X, 8 for o and 10 for d, i and u |
| FormatText.DirectiveInText | src/console/vtxprintf.c:101-289 | The same with any flags, width, precision and qualifier, for every value the qualifier admits: the width and precision are kept, X alone shows capitals, signs and the prefix are there exactly if asked for, and padding is on the side asked for |
| FormatText.Truncated | src/console/vtxprintf.c:265-286 | Any other value is taken modulo 2^16, 2^8, 2^32 or 2^64, as the qualifier says |
| FormatText.TextShape | src/console/vtxprintf.c:22-99 | What the flags do to the text of any number |
| FormatText.CharacterDirective | src/console/vtxprintf.c:185-192 | c shows one byte with spaces on the side asked for |
| FormatText.StringDirective | src/console/vtxprintf.c:194-209 | s shows at most precision bytes, and <NULL> for no string, with spaces on the side asked for |
| FormatText.PointerDirective | src/console/vtxprintf.c:211-219 | p shows the address in base 16 behind 0x with at least eight digits |
| FormatText.PlainDirectives | src/console/vtxprintf.c:221-262 | Two percent signs show one, n shows nothing, an unknown letter is shown as written |
| FormatText.StarArguments | src/console/vtxprintf.c:136-164 | A star takes an argument as the width, whose sign asks for the left side, or as the precision |
| Number.Sink.Tx | src/console/vsprintf.c:11-19 | Stores the byte while there is room, and counts it anyway |
| Vsnprintf.VsnPrintf | src/console/vsprintf.c:21-33 | The first size - 1 bytes of the full output and a NUL, and the length of the full output; nothing without room |
| QuickSort.PartitionIsRight | payloads/coreinfo/pci_module.c:39-57 | The pivot stands at the index, between the smaller keys and the others, and nothing is lost |
| QuickSort.EqualKeysNeverEnd | payloads/coreinfo/pci_module.c:59-70 | A list with two equal keys sends both to the same part for ever |
| QuickSort.RightPartProgress | payloads/coreinfo/pci_module.c:59-70 | The right part, which keeps the pivot, is shorter or starts with its smallest key, and the list did not |
| QuickSort.DistinctKeysEnd | payloads/coreinfo/pci_module.c:59-70 | On distinct keys the recursion ends |
| QuickSort.EndsExactlyOnDistinctKeys | payloads/coreinfo/pci_module.c:59-70 | The sort ends exactly on lists whose keys are distinct |
| QuickSort.Swap | payloads/coreinfo/pci_module.c:25-37 | Exchanges two elements and nothing else |
| QuickSort.Partition | payloads/coreinfo/pci_module.c:39-57 | The array part becomes the partition of what it was |
| QuickSort.Quicksort | payloads/coreinfo/pci_module.c:59-70 | Sorted by key, a permutation of what was there, nothing outside the part touched |
| ResourceList.Resources.FreeResource | src/device/device_util.c:325-335 | The pointers after taking one structure off a device's list and putting it first on the spare list |
| ResourceList.RemoveSpells | src/device/device_util.c:325-335 | Those pointers spell the lists without it: no list has a cycle or meets another, and nothing is lost |
| ResourceList.Resources.CompactResources | src/device/device_util.c:344-356 | Exactly the structures without flags move to the spare list; the others stay in order and no other device is touched |
| ResourceList.LiveAndDead | src/device/device_util.c:344-356 | Compaction loses nothing and invents nothing |
| ResourceList.LiveKeepsOrder | src/device/device_util.c:344-356 | The structures in use keep their order |
| ResourceList.Resources.ProbeResource | src/device/device_util.c:365-376 | The structure with the index, none exactly if there is none |
| ResourceList.Resources.AllocateMoreResources | src/device/device_util.c:298-315 | 64 new cleared structures in a row become the spare list |
| ResourceList.AppendSpells | src/device/device_util.c:397-412 | Putting the first spare structure at the end of a list keeps all lists apart, complete and without equal indexes |
| ResourceList.Resources.NewResource | src/device/device_util.c:388-427 | After compaction the structure with the index, in place, or the first spare one at the end; initialised, a fixed one keeping base and flags; all lists stay sound and all other structures unchanged |
| ResourceList.Serve | src/device/device_util.c:298-427 | Over any sequence of requests and compactions on any devices the lists stay acyclic, apart and complete, with indexes unique per device |
| ResourceList.GivenOutAgain | src/device/device_util.c:388-427 | A structure that is on the device's list and not in use is given out again exactly if there is one and no structure in use has the index |
| ResourceList.LastIsGivenOut | src/device/device_util.c:388-427 | Of several, it is the last one on the list |
| ResourceList.AskTwice | src/device/device_util.c:388-427 | Two requests without flags set in between, for indexes no structure in use has, return one structure, which has the second index |
| ResourceList.AskTwiceOnNewDevice | src/device/device_util.c:388-427 | So does every pair of first requests on a new device |

## Left out

Resource allocation:
- 64-bit wrap-around of addresses: sums are exact, as for windows and sizes that end below 2^64.
- AllocateResources: more than one window of a type per bridge, subtractive resources below the domain, windows that are
  fixed or of a kind other than io, mem and prefmem, and resources that have a place before the run: the traversal would
  meet them twice.
- AllocateToplevelResources: resources that have a place before the run and are not fixed.
- Several domains: they are allocated one after the other in the same way.
- Tags of memory ranges, cloning, and ranges built from other sources than the domain's windows.
- Resources are named by their place in a store rather than by pointer, so aliasing of resource structures is not part
  of the allocator's model; it is what `ResourceList` is about.
- Messages, and the cleanup of the range list.

Resource structures:
- Failure of malloc, and callers that change index or next themselves.
- The doubly linked list of `src/commonlib/list.c`: lists of devicetree nodes are sequences.

Devicetrees:
- Blobs that are not well-formed or hold NOPs, beyond what `FdtNextProperty` and `FdtNextNodeName` say; offsets of 2^31
  and above, for which the int results would be negative.
- Nodes are values: the intrusive lists are sequences, and nodes shared between trees after a merge are not seen.
- Failure of malloc and strdup.
- A reserve map that is not right behind the header: `dt_flatten` writes it there but keeps the header's old offset, so
  the round trip needs the two to agree.
- Phandle properties of fewer than four bytes, and cell-count properties of fewer than four bytes where a search asks for
  them, which the original reads past their end.
- External fixups, symbols and the import of fragments: string parsing into fixed buffers around the merge proved here.
- Fixup offsets are exact; the source adds 4 to an offset in 32 bits.
- A fixup subtree that would have to fix itself.

AML:
- The assertions on the depth of the stack and room in the buffer are preconditions; packages of 2^28 bytes and more.
- Multi-part names, and lists of more than 65535 fields, whose counter would wrap.

FSP:
- Images of 4 GiB and more, lengths of zero on which a loop does not advance, and control fields outside the image,
  which the source reads without checking; `WellFormed` shuts them out together with sites that overlap each other or
  control fields.
- `src/commonlib/fsp_relocate.c` on machines with 32-bit size_t.
- The two loops over relocation entries are one (`RelocateEntries`), as are the two looks at the information header
  (`InfoHeader`); they differ in the widths and steps that the model keeps.
- TeIsStripped: relocation blocks with an odd number of bytes, behind which the two loops go on at different places, and
  RVAs within what was stripped.
- RelocateTwice: the first address is below 4 GiB, because the information header keeps only 32 bits of it.

PCI:
- The three bus registers of a bridge are written in one step; what unscanned bridges hold from before is not seen.
- The closing state that no caller uses, and device probing.
- ScanHostBridge: hotplug counts that could wrap 16 bits with some bus number; RouteScan says what opening one does. Limits
  above bus 255: the number of buses of a segment is at most 256.

I2C:
- Slaves keep to the protocol: they change SDA only while SCL is low. Timing, and the recovery functions for wedged
  buses.
- Segments do not share their buffers.

Formatted output:
- Missing or mistyped arguments and overflowing widths, which are undefined; what `%n` stores.
- long, size_t and pointers have 64 bits.
- The callback is the one of vsnprintf; others differ only in where bytes go.

Quicksort:
- A sub-list is a pair of indexes into the array rather than a pointer into it.

Leaving these out altogether adds only easy members: console drivers, table filling in `src/acpi/acpi.c`, the endian
helpers, and chip drivers.
