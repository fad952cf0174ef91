# rcard: verified models of the image pipeline and the device protocols

rcard builds firmware images for a small board and talks to the board over USB and serial lines.
This project models the parts of it where a mistake is silent: the layout solver, the linker, the
boot loader, the image format, the IPC codec and protocol, the wire framings, and the log and flash
bookkeeping of the host application. Code that mutates state is a class or a method with loops, tied
to functions and predicates over values; what the code is for is then proved about those.

| files | component |
|---|---|
| `LayoutCursors`, `LayoutSolver`, `LayoutSolve`, `LayoutPasses`, `LayoutRoom`, `LayoutWindows`, `LayoutTheorems`, `BitOps` | memory layout: cursors, shared groups, fixed regions, the deferred passes, room, places with two windows |
| `TaskOrder` | dependency closure, depths, canonical task order |
| `Link`, `Crc32`, `PlacesImage`, `LittleEndian`, `Boot` | linking, the image file, the boot loop, and all of them end to end |
| `Postcard`, `IpcValue`, `IpcEncode`, `IpcDecode`, `IpcWire`, `IpcRoundTrip`, `IpcLimits`, `IpcRegistry` | the schema-directed codec and whole calls |
| `IpcProtocol`, `IpcRuns`, `IpcRunTheorems`, `IpcNumbers`, `IpcEndpoint` | request/reply matching, retransmission, shutdown and sequence numbers over every interleaving, and the object that goes through it |
| `UsbCrc`, `LogWriter`, `Usart2`, `Usart2Theorems`, `Usart2Contents`, `Monitor` | framing and stream parsers, and what the streams hold |
| `FlashWait`, `FlashPartition`, `LogBuffer`, `CivilDate` | host bookkeeping |
| `Wrappers`, `Listing`, `StableSort` | shared helpers |

The main results:

- **From layout to memory.** `Boot.BuildAndBoot` lays regions out, links against the layout, builds the
  image and boots it. Once booted, memory holds every linked segment at its own address, copied or in
  place; what a place other than the host place allocates behind its segments is zero; and everything else
  is untouched.
- **Layout.** `LayoutTheorems.BuildLayout`: solving and then resolving the deferred passes in any order
  places every request once, and whatever has content inside its place. Where the windows of each place
  agree the addresses are aligned and no two regions of a place outside a shared group overlap; where
  places are separate too, no two regions overlap at all, and it succeeds whenever group members agree,
  code is measured and each place has room for the sizes and paddings asked of it (`LayoutRoom.Buildable`).
  `LayoutCursors.ResolveIff` says which address a place gets, and `LayoutTheorems.ConfigurationClear` reads
  agreement and separation off the configured mappings and offsets.
- **Codec.** `IpcWire.WireDecodes`: whatever fits a schema decodes from its wire form, all variants,
  sequences, maps and characters included. `IpcRoundTrip.RoundTrip`, `IpcRegistry.HandleTravels`: the
  host's own encoding of a well-typed value decodes to that value in schema order and leaves following
  bytes alone. `IpcLimits.DecodeTight`: of the byte strings of that length, only those do; longer varints
  are read as well (`IpcLimits.OverlongReads`).
- **Logs.** `Usart2Contents.LogArrives`: a log sent as framed fragments, however it is cut, is reported once,
  with the metadata its header spells and the values of its body in order.
- **Protocols.** Over every run: at most one answer per call and at most four sends of a frame
  (`IpcRunTheorems`), at most three stub writes per flash request and one report per waiter (`FlashWait`),
  every log stream closes exactly once or is still open (`Usart2Theorems`). Every outcome has its cause in the
  run: an answer is the one handed to the call, by a reply to its own number or by the round that gave up on
  it (`IpcRunTheorems.OutcomeHasCause`), and a report follows the attach or the timer it speaks of
  (`FlashWait.ReportHasCause`). `IpcEndpoint.Protocol` and `FlashWait.FlashState` are the shared objects: each
  of their methods is one step of such a run.

Where the code does not do what it says, the project keeps the code and proves when it does:

- The mask form of alignment rounds to a multiple exactly for powers of two (`BitOps.AlignUpExact`), and
  only in the canonical window: an address in another window is aligned exactly when that window lies a
  multiple of the alignment away (`LayoutCursors.TryAllocateAligned`,
  `LayoutCursors.SkewedWindowMisaligns`). A region without content gets whatever address the last region
  left (`LayoutWindows.EmptyAlignedIff`).
- A deferred pass does not see regions handed out in a place's executable window
  (`LayoutWindows.VisibleIffCanonical`). A later region keeps clear of such a region exactly when what it
  does see puts it past that region's end, or far enough before its start
  (`LayoutWindows.LaterPassApartIff`, `LayoutWindows.FirstRegionApartIff`); with nothing to see, both get
  the same address (`LayoutWindows.UnseenIsOverwritten`). Code of two passes, alone in such a place, always
  does (`LayoutWindows.CodeOfTwoPasses`).
- The checksum of an image does not protect the byte that says whether there is a checksum: of all damage
  to at most four adjacent covered bytes, exactly the one that turns the format into 1 still boots
  (`PlacesImage.DamageBootsIff`, `PlacesImage.FormatByteBypassesChecksum`).
- A comment in `host/usb/src/crc.rs` says corrupting the length field is always caught. It is not
  (`UsbCrc.LengthCorruptionCanPass`): a transfer passes exactly when declared frame and checksum check to
  zero (`UsbCrc.AcceptedIffResidueZero`), so of the transfers whose beginning is damaged, length field
  included, exactly those pass whose declared frame the next bytes happen to close
  (`UsbCrc.LengthPassesIff`). Damage to two adjacent bytes of frame and checksum that leaves the length
  field alone is caught (`UsbCrc.BurstRejected`).
- The decoder asks for no fields in struct variants (`host/ipc-runtime/src/decode.rs:288`, against line 104
  for plain structs), so a struct variant with a field never decodes. The encoder writes every generic
  variant with index 0. A generic variant therefore survives exactly when it is the first, readable and not
  shaped like a result (`IpcLimits.GenericEnumRoundTrip`). No value survives a sequence or map schema
  (`IpcLimits.SequencesNeverRoundTrip`).
- Inside a newtype, a tuple struct or a variant payload the caller's field order reaches the wire, and the
  value survives exactly when that order gives the bytes of the schema's order (`IpcLimits.CallerOrderIff`).
- Sequence numbers are handed out without a look at who still holds them, and both registering and the
  clean-up after a timeout go by number. After a request is numbered, some continuation has it cut another
  call off, or be cut off, exactly when another call still holds the number: has it without being
  registered, is registered, is timing out, or is being given up on (`IpcNumbers.NumberHarmsIff`). Runs
  that hand out free numbers only harm nobody (`IpcNumbers.NobodyCutOff`); numbers do run out
  (`IpcNumbers.NumbersRunOut`).
- A dependency precedes its client exactly while its depth is below 255 or its name sorts first
  (`TaskOrder.DependencyPrecedesClient`). The depth recursion ends exactly where dependency chains are
  bounded (`TaskOrder.EndsIffBounded`), and for every task exactly when some rank falls along all
  dependencies (`TaskOrder.AcyclicIffEnds`). A name used for two tasks can close a cycle, and then it does
  not end (`TaskOrder.SharedNameCycle`).
- The monitor takes an escape sequence to end at its first letter. Control sequences of ECMA-48 section 5.4
  leave it at rest exactly when their final byte is a letter (`Monitor.RestsIffLetter`); otherwise it
  swallows text up to the next letter (`Monitor.OpenSequenceSwallows`), and the text of control strings
  leaks into the data (`Monitor.ControlStringLeaks`). It takes every telnet command to be three bytes long.
  Bytes can be put between data bytes without effect exactly when they fall into such triples and
  letter-terminated escapes (`Monitor.TransparentIff`). So negotiations are transparent, two-byte commands
  never are and lose the next byte, and a subnegotiation is transparent exactly when its parameters, with 255
  doubled, and its end together fall into triples and letter-terminated escapes
  (`Monitor.CommandTransparentIff`, `Monitor.CommandRestsIff`, `Monitor.DoubledParameters`). A response line
  that starts like the prompt is lost (`Monitor.LineCollectedIff`).
- A serial frame of more than 300 bytes is cut and its tail read as a frame (`Usart2Theorems.FrameCut`).
- A USB attach is reported exactly when the waiter it fires had not yet timed out
  (`FlashWait.AttachReportedIff`); otherwise nobody reports it (`FlashWait.AttachDuringTimeoutIsSilent`).
- Every arrival order of a set of logs leaves the buffer in order exactly when the comparison is transitive
  on them (`LogBuffer.SortedIffCompatible`). It is when all carry ticks or none does
  (`LogBuffer.UniformIsCompatible`); of the mixed runs some qualify (`LogBuffer.MixedCanBeCompatible`) and
  some do not (`LogBuffer.MixedRunHasNoOrder`).

Conventions. Addresses and sizes are natural numbers; where the original would overflow or panic, the
model has an explicit outcome (`Overflows`, `Panicked`) or an explicit remainder. Maps are iterated in
arbitrary order. Time is a number passed in. Decoders that belong to other crates are parameters.
Automatic induction is off on every lemma where Dafny would try it, so each inductive proof is written out.

## Model

| member | source | states |
|---|---|---|
| BitOps.AlignUpRoundsUp | host/tfw/src/layout.rs:187-213 | for a power of two the mask form gives a multiple, and `AlignUp` itself says it is the first at or above the address |
| BitOps.AlignUpExact | host/tfw/src/layout.rs:187-213 | the mask form aligns every address if and only if the alignment is a power of two |
| LayoutCursors.ResolveIff | host/tfw/src/layout.rs:55-82 | a place gets an address if and only if it is its offset into the first mapping of the wanted kind that holds offset and size or, where none of that kind does, into the first that does; it gets none if and only if no mapping holds it |
| LayoutCursors.ResolveAgreesOnSuccess | host/tfw/src/layout.rs:55-82 | whether a place has a CPU address does not depend on the kind of access |
| LayoutCursors.PlaceKeyIs | host/tfw/src/layout.rs:107-110 | a place is known by its address for data, and one without address by its offset, where the comment says its size |
| LayoutCursors.CursorEndIff | host/tfw/src/layout.rs:150-155 | a place takes bytes if and only if they fit in front of what is reserved at its end |
| LayoutCursors.ComputeReservations | host/tfw/src/layout.rs:140-149 | exactly the addressable image places get the trailer reservation |
| LayoutCursors.TryAllocate | host/tfw/src/layout.rs:187-213 | a placement starts less than `align` past the cursor, ends inside the place minus its reservation, moves only this place's cursor; both failures are characterised |
| LayoutCursors.TryAllocateAligned | host/tfw/src/layout.rs:187-213 | with a power-of-two alignment the canonical position is aligned, and the address handed out is aligned if and only if its window lies a multiple of the alignment away |
| LayoutCursors.SkewedWindowMisaligns | host/tfw/src/layout.rs:187-213 | a place whose executable window is offset by 16 bytes hands out an unaligned address |
| LayoutCursors.AdvanceCursorsPast | host/tfw/src/layout.rs:169-179 | each cursor ends at the furthest end among the allocations that begin in its canonical range, and no further |
| LayoutSolver.CoalesceShared | host/tfw/src/layout.rs:254-322 | fails if and only if two members of a group disagree on place, size or alignment, naming the group and the later member; otherwise each group carries what its members said |
| LayoutSolver.PlacementSucceeds | host/tfw/src/layout.rs:187-213 | room for size and padding always leads to a placement |
| LayoutSolver.AllocateShared | host/tfw/src/layout.rs:324-357 | every group gets one spot in the data window, aligned there, shared by all its members and apart from all others; succeeds whenever the places have room |
| LayoutSolver.AllocateFixed | host/tfw/src/layout.rs:359-395 | every fixed region sits where it was asked for, in order, aligned as far as its window allows, and nothing placed before moves; succeeds whenever the places have room |
| LayoutSolver.ApartSpotsAreDisjoint | host/tfw/src/layout.rs:108-138 | spots apart in canonical space are disjoint CPU ranges when resolution agrees |
| LayoutSolve.SplitDeferred | host/tfw/src/layout.rs:397-411 | unsized regions are deferred or become ACL entries; fails if and only if one has no place |
| LayoutSolve.Solve | host/tfw/src/layout.rs:228-414 | every request lands in exactly one of placed, deferred and ACL-only; group members share one allocation; all spots are apart, inside their places also when empty, aligned as far as their window allows, larger ones first, and within the sizes and paddings asked for; succeeds on every solvable request list |
| LayoutPasses.CollectRegions | host/tfw/src/layout.rs:488-515 | fails if and only if code of the pass is unmeasured; otherwise lists each mapped region of the pass once |
| LayoutPasses.SeedCursors | host/tfw/src/layout.rs:517-523 | every referenced place gets a cursor at its start |
| LayoutPasses.AdvanceCovers | host/tfw/src/layout.rs:169-179 | the rebuilt cursors lie past every earlier region that has a canonical address |
| LayoutPasses.Layout.Resolve | host/tfw/src/layout.rs:438-565 | a pass places exactly its deferred regions, nonempty ones inside and aligned as far as their window allows, apart and largest first, where the earlier layout's visible regions put them; keeps all earlier placements and all other deferred regions; with canonical addresses the whole layout stays apart, and in separate places empty regions are inside too; succeeds whenever code is measured and there is room |
| LayoutPasses.EmptyWithoutAddress | host/tfw/src/layout.rs:533-548 | an empty region of a place without address is entered at zero |
| LayoutRoom.PassNeedIs | host/tfw/src/layout.rs:525-563 | what a pass needs of a place does not depend on the order its regions are taken in |
| LayoutRoom.PassRoomHolds | host/tfw/src/layout.rs:474-565 | in a layout within its plan every pass has room |
| LayoutTheorems.BuildLayout | host/tfw/src/layout.rs:228-565 | after solving and all three passes in any order nothing is deferred and every request is honoured, inside its place if it has content; where the windows of each place agree, addresses are canonical and aligned and regions of one place not sharing a group are apart; in separate places all regions not sharing a group are disjoint, and it succeeds whenever members agree, code is measured and each place has room for everything asked of it; a failure names the region or group at fault |
| LayoutTheorems.ConfigurationClear | host/tfw/src/layout.rs:55-82 | mappings at different addresses that do not meet, and places in one mapping with offset ranges apart or equal, make places separate and consistent; with one window per place data and code resolve alike |
| LayoutTheorems.TrailersStayFree | host/tfw/src/layout.rs:140-155 | in every finished layout the last 1024 bytes of an image place are in no region |
| LayoutWindows.SweptReachesIff | host/tfw/src/layout.rs:169-179 | a rebuilt cursor has reached an address if and only if some region that begins in its canonical range ends there or later |
| LayoutWindows.VisibleIffCanonical | host/tfw/src/layout.rs:169-179 | an earlier region begins in the canonical range if and only if it was handed out at its canonical address |
| LayoutWindows.LaterPassApartIff | host/tfw/src/layout.rs:474-565 | a region of a later pass keeps clear of any earlier one in its place if and only if its landing, computed from the earlier layout, is at or behind that region's end or far enough before its start; a visible region that ends there or later suffices |
| LayoutWindows.FirstRegionApartIff | host/tfw/src/layout.rs:474-565 | for the first region of a pass in a place, if and only if the beginning of the place or a region visible in the canonical window reaches past the last alignment step before the earlier region's end, or the landing is far enough before that region |
| LayoutWindows.ResolveIsPassOver | host/tfw/src/layout.rs:474-565 | what these results assume of a pass is what `LayoutPasses.Layout.Resolve` promises |
| LayoutWindows.UnseenIsOverwritten | host/tfw/src/layout.rs:474-565 | with nothing visible in the canonical window, the pass hands out the address the other window's first region already has |
| LayoutWindows.EmptyAlignedIff | host/tfw/src/layout.rs:533-548 | an empty region sits at the end of everything in its place, and its address is aligned if and only if that end, moved into its window, is |
| LayoutWindows.CodeOfTwoPasses | host/tfw/src/layout.rs:474-565 | code of two passes, alone in a place with a separate executable window, gets one address whenever both passes succeed, and they do whenever each has room by itself |
| LayoutWindows.RebuiltIsSwept | host/tfw/src/layout.rs:169-179 | the cursor of the two concrete cases is the one a pass rebuilds from their allocations |
| LayoutWindows.DualMappedCollision | host/tfw/src/layout.rs:474-565 | a concrete place where code of two passes gets one address |
| LayoutWindows.DualMappedDataShows | host/tfw/src/layout.rs:474-565 | the same place, where data placed behind the first code keeps the second clear |
| TaskOrder.CollectTasks | host/tfw/src/layout.rs:26-45 | the walk keeps the first task met under each name; the collected tasks contain every entry, are closed under dependencies, hold nothing that no entry needs, and have no cycle when a name always means the same task |
| TaskOrder.SharedNameCycle | host/tfw/src/layout.rs:26-45 | what is collected from a task whose name is used again below it: the depth recursion does not end, and no rank falls along the dependencies |
| TaskOrder.EndsIffBounded | host/tfw/src/layout.rs:576-600 | the memoised recursion from a name ends if and only if the dependency chains from it are bounded |
| TaskOrder.AcyclicIffEnds | host/tfw/src/layout.rs:576-600 | a rank falls along every dependency if and only if the recursion ends for every task |
| TaskOrder.ChainBound | host/tfw/src/layout.rs:575-607 | no dependency chain is longer than the depth |
| TaskOrder.LongestChain | host/tfw/src/layout.rs:575-607 | some dependency chain is as long as the depth |
| TaskOrder.DepDepth | host/tfw/src/layout.rs:576-600 | the memoised recursion returns the longest-path depth, saturated at 255, and keeps the cache correct; it is the recursion of `EndsIffBounded` |
| TaskOrder.DepDepths | host/tfw/src/layout.rs:575-607 | the finished table has the depth of every task |
| TaskOrder.OrderedTaskNames | host/tfw/src/layout.rs:619-634 | the result lists every task once, in order of workgroup, depth and name |
| TaskOrder.StrLeqIff | host/tfw/src/layout.rs:619-634 | names compare by their first differing character, beginnings first |
| TaskOrder.DependencyPrecedesClient | host/tfw/src/layout.rs:609-634 | within a workgroup a dependency comes first if and only if its depth is below 255 or its name is not larger |
| TaskOrder.CanonicalUnique | host/tfw/src/layout.rs:617-634 | there is only one canonical order, so all users of it agree |
| Crc32.BuildTable | shared/places/src/lib.rs:91-109 | entry i of the table is eight register rounds of i |
| Crc32.TableStepIsAbsorb | shared/places/src/lib.rs:111-120 | the table step is eight rounds of the bitwise register |
| Crc32.Update | shared/places/src/lib.rs:111-120 | the table-driven loop folds the bitwise register over the data |
| Crc32.CheckValue | shared/places/src/lib.rs:86-125 | the digits 1 to 9 have the check value of the CRC-32 of IEEE 802.3 |
| Crc32.BurstChangesChecksum | shared/places/src/lib.rs:111-125 | any change confined to four adjacent bytes changes the checksum |
| PlacesImage.ComputeChecksum | shared/places/src/lib.rs:129-142 | the three updates give the checksum of everything but the checksum and state fields |
| PlacesImage.FillRegion | shared/places/src/lib.rs:756-769 | the data region holds every segment at its offset and 0xFF everywhere else |
| PlacesImage.Build | shared/places/src/lib.rs:738-813 | the file is data region, tables, and footer with a checksum over itself |
| PlacesImage.ParsedIsOk | shared/places/src/lib.rs:299-374 | a successful parse guarantees that every segment's bytes lie before the tables |
| PlacesImage.BuildThenParse | shared/places/src/lib.rs:299-374 | parsing a built file succeeds with the same entry point, version, timestamp, counts, partitions and segments, a valid checksum, and a bootable state |
| PlacesImage.FooterLayout | shared/places/src/lib.rs:32-47 | the footer fields of a built file stand at the documented distances from its end, which is the magic number |
| LittleEndian.ByteAt | shared/places/src/lib.rs:821-860 | byte `k` of a field counts multiples of 256 to the power `k` |
| PlacesImage.TablesAligned | shared/places/src/lib.rs:741-750 | the tables start at the first multiple of four behind the data |
| PlacesImage.ParseRejects | shared/places/src/lib.rs:299-340 | too small, wrong magic and unknown version are told apart |
| PlacesImage.FindPartition | shared/places/src/lib.rs:442-452 | the first partition with the hash, if and only if there is one |
| PlacesImage.ConcernReadsBack | shared/places/src/lib.rs:165-254 | a stored concern reads back as its source; only the erased field is bootable; an unknown source is the runtime's |
| PlacesImage.ConcernKeepsImage | shared/places/src/lib.rs:410-425 | writing the state field changes the decoded state and nothing else; the checksum verdict stays |
| PlacesImage.DamageBootsIff | shared/places/src/lib.rs:299-425 | an image damaged in at most four adjacent covered bytes boots if and only if its format field has become 1 and its magic still stands |
| PlacesImage.DamageNoticed | shared/places/src/lib.rs:410-425 | damaged in that way and still of format 2, it is compromised |
| PlacesImage.FormatByteBypassesChecksum | shared/places/src/lib.rs:410-416 | every parsed image of format 2 boots with that one byte changed to 1 |
| PlacesImage.SelectionIsBest | shared/places/src/lib.rs:625-661 | a slot is chosen if and only if one is bootable; the chosen one is bootable and no bootable slot is newer; ties go to A |
| Link.FindPlaceIff | host/tfw/src/link.rs:339-346 | an address has no place if and only if no range holds it; its place is the name of the first range that does |
| Link.PlaceOfAddress | host/tfw/src/link.rs:339-346 | with ranges apart, an address is in a place if and only if the place's range holds it |
| Link.GroupByPlace | host/tfw/src/link.rs:81-90 | each group is its place's segments in input order; fails if and only if a segment lies in no range, naming the first such segment's owner and address |
| Link.NeighboursSuffice | host/tfw/src/link.rs:174-189 | after sorting, neighbours are apart if and only if all segments are pairwise apart |
| Link.MergePlace | host/tfw/src/link.rs:174-205 | the blob holds every segment's bytes and 0xFF elsewhere; fails if and only if two segments of the group overlap, naming two that do |
| Link.MemEnd | host/tfw/src/link.rs:207-222 | the furthest end among the allocations that begin in the place, or the default |
| Link.OrderPlaces | host/tfw/src/link.rs:162-169 | every place once, host-resident ones first |
| Link.LinkPlace | host/tfw/src/link.rs:171-255 | one place's blob with the end of its memory and its file offset, cut to 32 bits; fails as an overlap if and only if two of its segments overlap |
| Link.LinkImage | host/tfw/src/link.rs:43-256 | for all ranges, one blob per place that holds a segment; an unmapped segment or two overlapping segments of a place are named as the cause; with places mapped once and everything inside them, each entry is inside its range, long enough for its allocations, at its linker offset or packed 4-aligned behind everything before it, and placeable input that fits 32-bit offsets links |
| Link.EntriesApart | host/tfw/src/link.rs:171-256 | two entries occupy different memory and different file ranges |
| Link.LinkedFilesDisjoint | host/tfw/src/link.rs:224-235 | file ranges of all blobs are pairwise disjoint |
| Boot.CopyBytes | firmware/bootloader/src/main.rs:217-221 | memory is the old memory with the old source bytes at the destination, also when they overlap |
| Boot.ZeroBytes | firmware/bootloader/src/main.rs:224-228 | memory is the old memory with zeros in the given range |
| Boot.LoadSegments | firmware/bootloader/src/main.rs:197-232 | afterwards every segment's bytes are at its address with zeros behind copied ones; the image and all other memory are unchanged |
| Boot.LinkedIsLoadable | host/tfw/src/link.rs:171-256 | linked entries never write over each other or over the image they are read from |
| Boot.LinkAndBoot | firmware/bootloader/src/main.rs:197-232 | linking, building, programming and booting leaves every PT_LOAD segment's bytes at its address, zeros in what a non-host place allocates behind its segments, and all memory outside the image and the copied segments as it was; the other outcomes have their causes |
| Boot.BuildAndBoot | host/tfw/src/link.rs:43-256 | the same from a request list, untouched memory and the cause of a refused image included: the layout that was built meets the linker's input demands, and a layout with room is always built |
| Boot.LayoutSatisfiesLinker | host/tfw/src/link.rs:214-220 | allocations of a built layout stay inside the range they begin in |
| UsbCrc.Crc16 | host/usb/src/crc.rs:21-34 | the nested loops compute the fold of the CRC register |
| UsbCrc.CheckValue | host/usb/src/crc.rs:1-34 | the digits 1 to 9 have the check value of CRC-16/CCITT-FALSE |
| UsbCrc.ResidueZero | host/usb/src/crc.rs:21-34 | data followed by two bytes checks to zero if and only if they are its checksum |
| UsbCrc.BurstChangesChecksum | host/usb/src/crc.rs:21-34 | any change confined to two adjacent bytes changes the checksum |
| UsbCrc.WrapFrame | host/usb/src/crc.rs:38-49 | the wire form is frame, checksum and perhaps a pad, and never a multiple of 64 bytes long |
| UsbCrc.RoundTrip | host/usb/src/crc.rs:38-74 | unwrapping undoes wrapping if and only if the frame's header tells its length |
| UsbCrc.DoubleWrap | host/usb/src/lib.rs:430-438 | a frame wrapped twice still unwraps to itself |
| UsbCrc.AcceptedIffResidueZero | host/usb/src/crc.rs:56-74 | with enough bytes a transfer is accepted if and only if frame and checksum together check to zero |
| UsbCrc.TooShortIff | host/usb/src/crc.rs:56-68 | a transfer is too short if and only if it has fewer bytes than its header declares or a header takes |
| UsbCrc.BurstRejected | host/usb/src/crc.rs:51-74 | damage to at most two adjacent bytes, length field aside, is always rejected |
| UsbCrc.LengthCorruptionCanPass | host/usb/src/crc.rs:51-55 | a corrupted length field can pass the check, alone or together with the byte before it |
| UsbCrc.LengthPassesIff | host/usb/src/crc.rs:51-74 | a transfer with a damaged beginning, length field included, passes if and only if the bytes behind the declared frame, the sent ones where the damage ends before, are that frame's checksum; it is then no longer than the one sent, or one more where a pad was added |
| Postcard.VarintReads | host/ipc-runtime/src/value.rs:59-71 | reading a written varint gives the number and stops right behind it |
| Postcard.UintReads | host/ipc-runtime/src/decode.rs:82-87 | every unsigned integer of a width reads back, and nothing behind it is touched |
| Postcard.SintReads | host/ipc-runtime/src/decode.rs:77-81 | every signed integer of a width reads back through zigzag or two's complement |
| Postcard.CharReads | host/ipc-runtime/src/decode.rs:90 | every Unicode scalar reads back from its length-prefixed UTF-8 form |
| IpcValue.SwapRemoveForgets | host/ipc-runtime/src/registry.rs:402-409 | removing a field by swap forgets that name and no other |
| IpcDecode.VisitTuple | host/ipc-runtime/src/decode.rs:209-218 | the tuple loop decodes element by element and stops at the first failure |
| IpcDecode.VisitStruct | host/ipc-runtime/src/decode.rs:228-237 | the struct loop decodes the offered number of fields in schema order, and fails when more are declared |
| IpcDecode.VisitSeq | host/ipc-runtime/src/decode.rs:193-199 | the sequence loop decodes as many items as the length says |
| IpcDecode.VisitMap | host/ipc-runtime/src/decode.rs:247-254 | the map loop decodes key and value in turn |
| IpcDecode.VisitEnum | host/ipc-runtime/src/decode.rs:264-296 | the variant is the one the index names, with a payload of its shape; a struct variant with fields is offered none and fails |
| IpcDecode.DecodeValue | host/ipc-runtime/src/decode.rs:67-111 | the dispatch agrees with the decoder's specification on every schema and input |
| IpcWire.WireDecodes | host/ipc-runtime/src/decode.rs:67-296 | every value that fits a schema, with any variant, sequence or map, decodes from its wire form and leaves exactly what follows |
| IpcWire.CanonIsCanonical | host/ipc-runtime/src/decode.rs:21-61 | rewriting leaves no generic variant that is shaped like a result, at any depth |
| IpcWire.DecodePayload | host/ipc-runtime/src/decode.rs:21-61 | the public decoder returns every fitting value from its wire form, never a generic variant shaped like a result, and fails if and only if the bytes are not of the schema |
| IpcEncode.EncodeArgs | host/ipc-runtime/src/encode.rs:33-56 | the argument loop serializes handle and parameters in declaration order, or fails at the first missing or unresolvable one |
| IpcEncode.ResolvesIff | host/ipc-runtime/src/encode.rs:61-123 | a value is encoded if and only if, as deep as the encoder looks, its variants are known and its structs have their fields |
| IpcEncode.DecimalReads | host/ipc-runtime/src/encode.rs:74-80 | the index in front of a resolved variant's name is its decimal form |
| IpcRoundTrip.ExactIsWire | host/ipc-runtime/src/value.rs:60-118 | for a value that matches its schema the host's own bytes are its wire form |
| IpcRoundTrip.ExactDecodes | host/ipc-runtime/src/decode.rs:67-111 | those bytes decode to that value, leaving exactly what follows |
| IpcRoundTrip.OrderedIsExact | host/ipc-runtime/src/encode.rs:61-123 | putting a well-typed value in schema order makes it match its schema |
| IpcRoundTrip.ExactIsOrdered | host/ipc-runtime/src/encode.rs:61-123 | a value already in schema order is its own ordering |
| IpcRoundTrip.ResolvesToOrdered | host/ipc-runtime/src/encode.rs:61-123 | resolving a well-typed value succeeds with the bytes of the ordered value |
| IpcRoundTrip.RoundTrip | host/ipc-runtime/src/encode.rs:15-20 | encoding a well-typed value and decoding it, with anything behind it, gives the value in schema order and leaves the rest |
| IpcRoundTrip.EqualOrderedEncodeAlike | host/ipc-runtime/src/encode.rs:61-123 | well-typed values that differ only in field order, at any depth the encoder orders, have the same bytes |
| IpcLimits.GenericEnumRoundTrip | host/ipc-runtime/src/value.rs:99-118 | a generic variant survives if and only if it is the first of its enum, not a struct variant with fields, and not shaped like a result |
| IpcLimits.DecodeNoShorter | host/ipc-runtime/src/decode.rs:67-111 | the encoder never writes more bytes for a decoded value than the decoder consumed |
| IpcLimits.SequencesNeverRoundTrip | host/ipc-runtime/src/decode.rs:186-255 | no value survives a sequence or map schema |
| IpcLimits.DecodeTight | host/ipc-runtime/src/decode.rs:67-296 | if decoding gives a matching value and consumes no more bytes than that value has, the bytes are the value's own |
| IpcLimits.OverlongReads | host/ipc-runtime/src/decode.rs:82-86 | a small number also reads back from two bytes, where the encoder writes one |
| IpcLimits.PassedThroughIff | host/ipc-runtime/src/encode.rs:120-122 | bytes passed through unordered decode to the ordered value if and only if they are its bytes |
| IpcLimits.CallerOrderIff | host/ipc-runtime/src/encode.rs:95-122 | for any struct schema, two field orders give the same bytes in a struct; in a newtype, a tuple struct or a payload the ordered value comes back if and only if the caller's order has the same bytes |
| IpcLimits.OrderIgnored | host/ipc-runtime/src/encode.rs:95-108 | resolving depends on what each field name maps to, not on field order |
| IpcRegistry.TakeLeases | host/ipc-runtime/src/registry.rs:399-421 | each lease lends the bytes of its field, once, with a 16-bit length; all other fields remain |
| IpcRegistry.EncodeCall | host/ipc-runtime/src/registry.rs:363-443 | each error has exactly its cause; otherwise the arguments are those of the unleased fields and the leases those of the lease fields |
| IpcRegistry.LeasesDoNotDisturbArgs | host/ipc-runtime/src/registry.rs:423-433 | when no parameter shares a lease's name, leases do not change the argument bytes |
| IpcRegistry.CallIgnoresFieldOrder | host/ipc-runtime/src/registry.rs:395-433 | callers listing the same fields in different orders send the same arguments and leases |
| IpcRegistry.ServerReadsArgs | host/ipc-runtime/src/encode.rs:30-56 | the tuple the server decodes is the handle and the arguments in declaration order |
| IpcRegistry.ReplyRoundTrip | host/ipc-runtime/src/registry.rs:234-261 | a tagged reply decodes to the value the server serialized, whatever its variants, sequences and maps |
| IpcRegistry.ReplyErrors | host/ipc-runtime/src/registry.rs:234-261 | an empty reply, an arena error with its code, an unknown tag, and a reply without return schema are told apart |
| IpcRegistry.ExtractHandleIff | host/ipc-runtime/src/registry.rs:270-285 | a handle is found if and only if it is returned bare, as an option or as an `Ok`; the failures tell what came instead |
| IpcRegistry.HandleTravels | host/ipc-runtime/src/registry.rs:264-285 | the handle a constructor returns, in any of its three shapes, is the first thing the server reads for a later message |
| IpcEndpoint.Protocol.CheckFlag | host/ipc-protocol/src/lib.rs:158-160 | is the check event of the run; a call is turned away if and only if the flag is set |
| IpcEndpoint.Protocol.NextSeq | shared/usb-proto/src/writer.rs:21-40 | is the numbering event of the run, which advances also when encoding fails; the number returned is the call's, whoever else may hold it |
| IpcEndpoint.Protocol.Register | host/ipc-protocol/src/lib.rs:177-188 | is the insertion event of the run; the call has its entry, and another call keeps its own if and only if its number is a different one |
| IpcEndpoint.Protocol.Resolve | host/ipc-protocol/src/lib.rs:251-258 | is the reply event of the run; says whether it reached a call, and that call has the response |
| IpcEndpoint.Protocol.RemoveTimedOut | host/ipc-protocol/src/lib.rs:223-226 | is the clean-up event of the run; the call is done, and another call keeps its entry if and only if its number is a different one |
| IpcProtocol.CollectEntries | host/ipc-protocol/src/lib.rs:274-288 | every entry is either counted up and its frame listed once, or removed and its owner listed once, by whether it was retransmitted three times |
| IpcEndpoint.Protocol.Collect | host/ipc-protocol/src/lib.rs:269-289 | is the round event of the run; exactly the calls it gives up on are listed, all others keep their entries and their frames are listed |
| IpcEndpoint.Protocol.SetPoisoned | host/ipc-protocol/src/lib.rs:144-145 | is the flag event of the run |
| IpcEndpoint.Protocol.Clear | host/ipc-protocol/src/lib.rs:146-147 | is the clearing event of the run; every pending call is cut off |
| IpcEndpoint.Protocol.Safe | host/ipc-protocol/src/lib.rs:98-102 | whatever has happened to the object, each call was answered at most once and its frame sent at most four times |
| IpcProtocol.CollectShrinksBudget | host/ipc-protocol/src/lib.rs:260-289 | a round with something pending strictly shrinks what is left to retransmit |
| IpcProtocol.FourRoundsEmpty | host/ipc-protocol/src/lib.rs:98-102 | without new requests four rounds leave nothing pending |
| IpcRuns.Step | host/ipc-protocol/src/lib.rs:144-303 | every event keeps the invariant tying calls, channels, entries and counters |
| IpcRunTheorems.FramesBounded | host/ipc-protocol/src/lib.rs:98-102 | in every run a frame is sent at most four times |
| IpcRunTheorems.AtMostOneAnswer | host/ipc-protocol/src/lib.rs:247-258 | in every run a call is answered at most once, by a frame with its own number or by the round that gave up on it after three retransmissions |
| IpcRunTheorems.OutcomeIsFinal | host/ipc-protocol/src/lib.rs:203-245 | a call's outcome never changes |
| IpcRunTheorems.OutcomeHasCause | host/ipc-protocol/src/lib.rs:155-245 | in every run a call's outcome has its cause: an answer was handed to it by a reply to its own number, or by the round that gave up on it and then is a corruption; a failed send, a failed encoding, the flag, the timer, and a channel cut by a shutdown or by another call with its number account for the others |
| IpcRunTheorems.EndsAtOnce | host/ipc-protocol/src/lib.rs:155-245 | each of these events ends the call at once, with what is in its channel |
| IpcRunTheorems.CallEnds | host/ipc-protocol/src/lib.rs:155-303 | from any open endpoint a call that is numbered, registered and sent can get the reply to its number, at once or after a retransmission, the corruption after three more rounds and a fourth, or the timeout |
| IpcRunTheorems.NoLostWakeup | host/ipc-protocol/src/lib.rs:219-227 | a waiting call still has its entry, is about to be told that it was given up, or can return at once |
| IpcRunTheorems.AfterClear | host/ipc-protocol/src/lib.rs:137-160 | whatever is pending after a shutdown cleared the map belongs to a call that had passed the flag check before |
| IpcRunTheorems.RoundsConverge | host/ipc-protocol/src/lib.rs:260-289 | in every reachable state a round shrinks the budget and only a new request can grow it |
| IpcNumbers.NumberHarmsIff | host/ipc-protocol/src/lib.rs:168-226 | from any reachable state, once a request is numbered some continuation that hands out free numbers only has it drop another call's channel or lose its own to another call's registration or clean-up, if and only if the number was still held |
| IpcNumbers.NobodyCutOff | host/ipc-protocol/src/lib.rs:168-226 | in a run that hands out free numbers only no call's registration or clean-up drops another's channel |
| IpcNumbers.WindowKeepsNumbersFree | shared/usb-proto/src/writer.rs:21-34 | the next number is free while no call outlives 65535 later requests |
| IpcNumbers.NumbersRunOut | host/ipc-protocol/src/lib.rs:168-226 | runs in which 65535 requests that fail to encode bring the number of a live call up again: a registered call is cut off, and one that is not registered yet or is cleaning up cuts the new request off although its number is not in the map |
| LogWriter.PiecesTile | shared/log/src/log_writer.rs:61-92 | the pieces concatenate to the input, all but the last are full, and there are ceil(N/128) of them |
| LogWriter.LogWriter.FlushBuf | shared/log/src/log_writer.rs:61-92 | sends the buffer on an open session, opens one first, or discards it when refused |
| LogWriter.LogWriter.WriteBytes | shared/log/src/log_writer.rs:97-138 | appends the bytes to the message, keeping buffer, calls made and message in step |
| LogWriter.LogWriter.Drop | shared/log/src/log_writer.rs:141-162 | the calls made are exactly the conversation for the message: one send up to 128 bytes, else start, pieces and end, else a refused start |
| LogWriter.LogMessage | shared/log/src/log_writer.rs:95-163 | the conversation depends on the concatenation of the writes only |
| Usart2.FeedSplit | host/serial/src/usart2.rs:205-275 | how bytes are split across reads does not matter |
| Usart2.Reader.ReadBytes | host/serial/src/usart2.rs:230-274 | the byte loop is the fold of the byte step |
| Usart2.Reader.ProcessChunk | host/serial/src/usart2.rs:341-406 | a chunk is ignored, passed on as a reply, or fed to its stream |
| Usart2.Reader.FeedFragment | host/serial/src/usart2.rs:376-405 | a fragment updates its stream, or finishes it and reports once |
| Usart2.Reader.Sweep | host/serial/src/usart2.rs:415-451 | exactly the streams idle for more than two seconds leave, each with its timeout report |
| Usart2Theorems.FrameDelivered | host/serial/src/usart2.rs:230-259 | a frame of at most 300 bytes is decoded whole at its delimiter, stamped with its first byte |
| Usart2Theorems.FrameCut | host/serial/src/usart2.rs:264-272 | a longer frame is reported after 301 bytes and its rest is read as a frame of its own |
| Usart2Theorems.MessagesArrive | host/serial/src/usart2.rs:230-274 | messages sent one after the other are processed in order and unchanged |
| Usart2Theorems.StreamsIndependent | host/serial/src/usart2.rs:361-405 | however fragments of several streams and sweeps interleave, one stream reports what it would have reported alone |
| Usart2Theorems.StreamsConserved | host/serial/src/usart2.rs:376-451 | over any run every stream opened has closed exactly once, as an entry, a bad header or a timeout, or is still open |
| Usart2Contents.HeaderSpelled | shared/log/src/metadata.rs:12-21 | the 29 header bytes give back level, ticks, source, log and species; levels beyond the six are refused |
| Usart2Contents.EntryArrives | host/serial/src/usart2.rs:315-405 | however a stream is cut into fragments, its end leaves one event: an entry with the header's metadata, the body's values in order and the time of the first fragment, or an error for a bad level |
| Usart2Contents.TimeoutReports | host/serial/src/usart2.rs:408-451 | a stream given up on, more than two seconds after its last fragment, reports its bytes and age and, with a good header, an entry marked as cut off with the values so far |
| Usart2Contents.EarlyTimeoutReports | host/serial/src/usart2.rs:408-451 | without a whole header only the timeout is reported |
| Usart2Contents.ChunkSpelled | host/serial/src/usart2.rs:341-376 | a fragment's id and data are read as they were sent, whatever follows them |
| Usart2Contents.LogArrives | host/serial/src/usart2.rs:205-405 | from the bytes on the line: a log sent as framed fragments is reported once, whole |
| Monitor.Inner.FeedByte | host/emulator/src/monitor.rs:53-137 | one byte takes the parser from state to state as specified |
| Monitor.Inner.FeedBytes | host/emulator/src/monitor.rs:340-349 | one read is the fold of the byte step |
| Monitor.Inner.BeginCommand | host/emulator/src/monitor.rs:252-258 | sending a command clears the response, may change the prompt and awaits the echo |
| Monitor.FeedIs | host/emulator/src/monitor.rs:53-137 | for all bytes and states: the phases see exactly the bytes outside telnet triples and escapes, and where the parser is among those does not depend on the phase |
| Monitor.UnnoticedIff | host/emulator/src/monitor.rs:53-137 | while a response is collected, bytes leave the state as it was if and only if they fall into telnet triples and letter-terminated escapes |
| Monitor.TransparentIff | host/emulator/src/monitor.rs:53-137 | bytes change nothing in any state at rest, whatever follows, if and only if they fall into telnet triples and letter-terminated escapes |
| Monitor.TriplesIff | host/emulator/src/monitor.rs:54-62 | without escapes that means whole triples, each begun by 255 |
| Monitor.LettersAre | host/emulator/src/monitor.rs:64-74 | the letters that end an escape are those of ASCII in either case |
| Monitor.RestsIffLetter | host/emulator/src/monitor.rs:54-74 | data or an ECMA-48 control or escape sequence leaves the parser at rest if and only if a sequence's final byte is a letter; such a sequence, and a telnet command that falls into triples and letter-terminated escapes, changes nothing |
| Monitor.ItemTransparentIff | host/emulator/src/monitor.rs:54-74 | a telnet command or ECMA-48 sequence is transparent if and only if the command falls into triples and letter-terminated escapes, or the sequence ends with a letter |
| Monitor.OpenSequenceSwallows | host/emulator/src/monitor.rs:64-74 | a sequence with another final byte swallows what follows up to and with the next letter |
| Monitor.ControlStringLeaks | host/emulator/src/monitor.rs:64-74 | a control string leaves the parser at rest if and only if its text ends in the middle of a telnet triple and outside an escape; text without 255 and ESC is read as data behind its first letter, and its terminator stays open |
| Monitor.CommandTransparentIff | host/emulator/src/monitor.rs:54-62 | of the RFC 854 commands negotiations are transparent, two-byte commands are not, and a subnegotiation with any parameters, 255 doubled, is if and only if its bytes behind the option are triples and letter-terminated escapes |
| Monitor.CommandRestsIff | host/emulator/src/monitor.rs:54-62 | negotiations leave the parser at rest, two-byte commands never do, a subnegotiation does if and only if its end falls into a triple begun before it outside an escape; two-byte commands and plain subnegotiations lose the next byte, and plain parameters are read as data |
| Monitor.DoubledParameters | host/emulator/src/monitor.rs:54-62 | a subnegotiation with parameters 255 255 is transparent; with one 255 its end is read as data |
| Monitor.ControlIsTransparent | host/emulator/src/monitor.rs:54-74 | any mix of transparent telnet commands and letter-terminated sequences between data bytes changes nothing |
| Monitor.ShortCommandSwallowsNextByte | host/emulator/src/monitor.rs:54-62 | after a two-byte telnet command the next byte is lost |
| Monitor.LineCollectedIff | host/emulator/src/monitor.rs:106-119 | a response line is collected if and only if no beginning of it looks like the prompt |
| Monitor.ExchangeAnswered | host/emulator/src/monitor.rs:89-119 | noise, echo, response lines and prompt leave the parser idle with exactly those lines |
| Monitor.ExchangeWithControls | host/emulator/src/monitor.rs:54-119 | the same with any transparent telnet commands and letter-terminated sequences mixed in |
| FlashWait.FlashState.RequestFlash | host/app/src/bridge.rs:716-722 | is the request event of the run; the device's next appearance writes a stub for it |
| FlashWait.FlashState.FinishFlash | host/app/src/bridge.rs:1110-1120 | is the completion event of the run; nothing is pending for the device |
| FlashWait.FlashState.TakeAttempt | host/app/src/bridge.rs:2425-2447 | is the appearance event of the run; gives up on a request exactly when it has had its three stub writes |
| FlashWait.FlashState.NextGeneration | host/app/src/bridge.rs:2482-2483 | is the numbering event of the run; the generation is one nobody had |
| FlashWait.FlashState.Await | host/app/src/bridge.rs:2485-2488 | is the insertion event of the run; the chip's entry becomes this generation's and whoever had it is dropped |
| FlashWait.FlashState.Attach | host/app/src/bridge.rs:2890-2895 | is the attach event of the run; takes out and fires whoever waits for the chip |
| FlashWait.FlashState.CleanUp | host/app/src/bridge.rs:2504-2511 | is the clean-up event of the run; superseded if and only if the waiter was fired or replaced, and no other generation's entry changes |
| FlashWait.FlashState.Safe | host/app/src/bridge.rs:2425-2531 | whatever has happened to the object, each request wrote at most three stubs and each waiter reported at most once |
| FlashWait.AttemptsBounded | host/app/src/bridge.rs:2425-2447 | in every run no flash request starts more than three stub writes |
| FlashWait.AtMostOneReport | host/app/src/bridge.rs:2493-2531 | in every run each waiter reports at most once |
| FlashWait.OthersUntouched | host/app/src/bridge.rs:2504-2511 | no step of a waiter touches another generation's entry or outcome |
| FlashWait.FailsIffStillCurrent | host/app/src/bridge.rs:2503-2529 | a waiter fails if and only if its entry still stands, and is silent if and only if it was fired or replaced |
| FlashWait.NoLostWakeup | host/app/src/bridge.rs:2480-2502 | a waiter still has its entry or can move on at once |
| FlashWait.AttachReportedIff | host/app/src/bridge.rs:2493-2531 | in every continuation the waiter an attach fires reports the boot if and only if it was still waiting then, and stays silent if and only if it had timed out |
| FlashWait.ReportHasCause | host/app/src/bridge.rs:2480-2531 | in every run a reported boot follows an attach that found the waiter's entry, a reported failure follows the timer, and silence an attach or a later waiter for the chip |
| FlashWait.EndsAtOnce | host/app/src/bridge.rs:2480-2531 | each of the ending steps ends the waiter at once with its own report |
| FlashWait.WaiterEnds | host/app/src/bridge.rs:2480-2531 | from any state a new waiter for a chip reports the boot when the chip attaches and the failure when it does not |
| FlashWait.AttachDuringTimeoutIsSilent | host/app/src/bridge.rs:2494-2529 | a run in which an attach between a waiter's timeout and its clean-up is reported by nobody |
| FlashPartition.EraseCovers | host/app/src/state.rs:2824 | the erase covers the data in whole blocks, wastes less than one, and fits whenever the data fits whole blocks |
| FlashPartition.TilesCover | host/app/src/state.rs:2857-2878 | every byte of the data goes out in exactly one program request, at its own place |
| FlashPartition.ProgramAll | host/app/src/state.rs:2844-2878 | the loop sends exactly the tiles, and on an honest erased device writes the data |
| FlashPartition.VerifyAll | host/app/src/state.rs:2886-2996 | success means the partition begins with the data; an honest device holding the data always verifies |
| FlashPartition.Flash | host/app/src/state.rs:2819-2996 | provided reads are truthful, success means the data is there, whatever erases and programs did; an honest device succeeds if and only if the erase fits, and keeps everything behind the erased blocks |
| LogBuffer.PartitionPoint | host/app/src/state.rs:237-242 | the loop computes the bisection, which on a partitioned buffer finds the partition point |
| LogBuffer.MergeAdapters | host/app/src/state.rs:228-232 | appends the adapters not yet listed, in order |
| LogBuffer.MergeUnites | host/app/src/state.rs:228-232 | merging unites the adapters and adds no duplicates |
| LogBuffer.DeviceHandle.PushLog | host/app/src/state.rs:222-244 | a repeated log is merged into the last entry with its id, a new one is inserted where the bisection ends |
| LogBuffer.DeviceHandle.PushAll | host/app/src/state.rs:222-244 | after any run every distinct log is there once with all its reporters; the buffer is in order when the comparison is transitive on the run, and a uniform run is the stable sort of its arrivals |
| LogBuffer.UniformRunIsSorted | host/app/src/state.rs:237-243 | when all logs carry ticks or none does, the buffer is sorted and ties keep arrival order |
| LogBuffer.SortedIffCompatible | host/app/src/state.rs:222-244 | every arrival order of a set of logs leaves the buffer in order if and only if the comparison is transitive on the logs that stay together |
| LogBuffer.UniformIsCompatible | host/app/src/state.rs:237-243 | it is transitive when all logs carry ticks or none does |
| LogBuffer.MixedCanBeCompatible | host/app/src/state.rs:237-243 | it can be transitive on a mixed run |
| LogBuffer.MixedRunHasNoOrder | host/app/src/state.rs:237-242 | three logs of a mixed run have no sorted arrangement, so some arrival order leaves them unsorted |
| CivilDate.DaysToYmd | host/tfw/src/build_metadata.rs:114-142 | every day count gives a valid date with that day number |
| CivilDate.DayNumberOrders | host/tfw/src/build_metadata.rs:114-142 | a date is earlier if and only if its day number is smaller |
| CivilDate.YearStartClosedForm | host/tfw/src/build_metadata.rs:115-123 | the days before a year are given by the Gregorian leap-day formula |
| CivilDate.MonthStartClosedForm | host/tfw/src/build_metadata.rs:124-146 | the days before a month are given by a formula without a table of month lengths |
| CivilDate.DateSurvives | host/tfw/src/build_metadata.rs:114-142 | converting the day number of a date gives the date back |
| CivilDate.DaysInOrder | host/tfw/src/build_metadata.rs:114-142 | of two day counts the larger gives the later date |

## Left out

- LayoutTheorems.BuildLayout: takes two places at one address to have one size, since the original keeps one cursor for both; disjointness is stated for places with one window each that do not overlap, and `LayoutWindows` says what happens with two windows. Having room is sufficient for success; which fuller layouts also succeed depends on how paddings fall.
- Boot.BuildAndBoot: is stated for places with one window that do not overlap, like disjointness of the layout.
- LayoutSolve.Solve: takes the request list as given, with distinct keys; a task named like the kernel or the boot loader would collide in the original's keys.
- Link.LinkImage: what holds of memory ranges and file offsets is stated for places mapped once with segments and allocations inside them; otherwise only the blobs and the errors are. The collection of segments from ELF files, which drops empty ones, and version and partition entries are not modelled.
- Link.LinkImage: the source places host-resident blobs by the first mapping of the image place; the model takes that range as a parameter.
- Boot.LoadSegments: cleared memory behind segments that run in place is not promised, because the boot loop skips them entirely.
- TaskOrder.DepDepth: is stated for acyclic dependencies; by `TaskOrder.AcyclicIffEnds` those are the ones on which the original's recursion ends.
- PlacesImage.DamageBootsIff: covers bursts of up to four adjacent covered bytes, which is what the checksum guarantees; wider damage can collide.
- IpcRoundTrip.RoundTrip: leaves out floating point and string values, which the original cannot decode; leaves of the wrong type, which the encoder passes through, are not well-typed.
- IpcRuns.Step: a caller that abandons a call before it returns is not modelled.
- IpcDecode.DecodeValue: the varint reader is the recursive form of the shift-and-or loop of the Postcard crate.
- LogWriter.LogMessage: one writer at a time uses the static buffer, as the original assumes.
- Usart2.Reader.ProcessChunk: stream states are values in the map, so in-place update through a reference is not captured; COBS and the log value decoder are parameters; IPC replies are recorded, not parsed.
- Monitor.RestsIffLetter: 8-bit control characters are data to the parser and to the model.
- Monitor.Inner.FeedByte: how a line is cleaned before the echo comparison is a parameter, and response lines are bytes without UTF-8 conversion; the waiting and timeouts of `execute` are left out.
- FlashWait.AttemptsBounded: serial-port discovery, cancellation and the stub writer itself are left out; the steps around the two shared maps are what is interleaved.
- FlashPartition.Flash: a device that answers reads with bytes it does not hold cannot be caught by reading back and is not covered; data beyond 4 GiB is not covered by the guarantees, because offsets travel as 32-bit numbers; progress events and mismatch diagnostics are left out.
- LogBuffer.PartitionPoint: follows the standard library's bisection with its midpoint rounded down; the library promises no position when the buffer is not partitioned.
- Out-of-space diagnostics, port registries, hex and archive handling, generated source text, the user interface and process control are not modelled.
