# Phantom FireWire driver: a verified model

The repository drives SensAble PHANTOM Omni haptic devices over IEEE 1394. It consists of a C++
library (`lib/src`), a reverse-engineering application in C that does the same job in one program
(`rev-eng`), a Mac OS X variant of parts of the library, and a patch that makes libraw1394 trace its
calls. This project models the parts that carry state and proves what they keep.

## How it is modelled

- **The bus** (`Raw1394`). A node is a `RemoteNode`: byte memory that is read and written in
  transactions. A script, any finite sequence, says of each transaction whether it is answered, must
  be tried again (EAGAIN) or fails; after the script every transaction is answered. Reading or writing
  an address the node does not have is an error. `Clean` scripts have no failure, `Prompt` ones no
  EAGAIN either. A device can also answer writes to some registers and ignore them.
- **The isochronous resource manager.** Twice: `ChannelProtocol` is a state machine in which any
  number of clients interleave single quadlet reads, choices, atomic allocations and releases;
  `Irm.ResourceManager` is what one process sees of it, with a script of what the others come to hold
  between two of its transactions. The script is arbitrary, but in both models other users give back
  channels of their own only; they do not take away what this process holds. (The application's
  shutdown can do that; `StolenChannel`.) Its register is the eight bytes of section 8.3.2.3.8 of
  IEEE Std 1394-1995 (`IrmRegister`).
- **Code that changes state** is written with classes, methods and loops as in the original, and each
  method is proved against a function or relation on values; the lemmas are about those. Exceptions
  and error returns are `Result.Err` or a `failed` flag.
- `Err`, `Threw` and `Raised` stand for thrown exceptions; C++98 rules are assumed, so a destructor may
  throw.

| module | models |
|---|---|
| `Words`, `IrmRegister` | byte order, the 64-bit channel word and the search in it |
| `ChannelProtocol` | interleaved allocation by many clients |
| `Raw1394` | the chunked, retrying read and the one-shot write |
| `ConfigRom`, `RomBytes`, `RomRoundTrip` | the meaning of a configuration ROM, as a whole and byte by byte; writing one and getting it back |
| `FirewireDevice`, `ProbeNode` | the two parsers |
| `DeviceRegistry`, `DeviceIterator`, `PhantomSearch`, `PhantomFindTest` | open devices, enumeration, `findPhantom`, the test scenario |
| `Irm`, `PhantomIsoChannel`, `PhantomSession` | channel ownership, the register handshake, start and stop |
| `RegisterFates` | the handshakes transaction by transaction, and the bytes they change |
| `SessionRuns` | every sequence of starts and stops, and which calls lose channels |
| `Omni`, `OmniLoop` | set-up, shutdown and control loop of the application |
| `MacChannels` | the Mac OS X channel mask |
| `HandleTable` | handle numbers of the tracing patch |

## What the code does not do

Where a property one would expect is false of the code, the model keeps the code and a member states
exactly when it holds.

- Closing a device removes exactly that device from the table only when it was opened last; otherwise
  the last one is lost, because the shift stops one slot early
  (`lib/src/FirewireDeviceLibraw1394.cpp:65-78`; `CloseExactIffLast`). A device opened last but one
  stays in the table itself (`StaysIfLastButOne`).
- `stop` masks the control register with the enable bit instead of its complement, so iso transfers
  stay enabled if they were, and every other control bit is cleared
  (`lib/src/PhantomIsoChannel.cpp:152-157`; `StopDoesNotDisable`). The application clears the bit.
- A search for a free channel reads two quadlets at two instants and can miss a channel although one
  was free all the time (`lib/src/FirewireDeviceLibraw1394.cpp:94-118`; `TornReadMissesFreeChannel`);
  `SearchSeesTwoInstants` and `FailedSearchWasOvertaken` say when it fails.
- The iterator visits exactly the nodes that exist if and only if no port after the first is empty: it
  looks at the node count with an `if`, so an empty later port yields a node that is not there
  (`lib/src/DeviceIteratorLibraw1394.cpp:59-70`; `VisitsAreTheNodes`).
- `write` drops the data on EAGAIN without an error. If that hits the last write of the receive
  handshake, and only then, `start` returns normally with 0x40 in the receive register
  (`lib/src/CommunicationLibraw1394.cpp:78-93`; `SetReceiveChannel`, `DroppedFinalWrite`).
- A start whose second channel is not to be had does not give the first one back when its rollback
  fails, which begins with `stop` and so fails at a device whose status registers are not 0xc0 and
  0x00 (`lib/src/PhantomIsoChannel.cpp:43-50`; `StartLoses`, with a run in `LostInRollback`). A stop at
  such a device throws, leaves the Phantom stopped and both channels taken for good
  (`lib/src/Phantom.cpp:130-135`; `StopLoses`, with a run in `LostInStop`). Channels are conserved over
  a run without failed transactions if and only if the status registers are healthy whenever `stop`
  runs (`SessionInvariant`).
- The 64-bit `guid` of the ROM structure shares its memory with `guid_lo` and `guid_hi` only, so it is
  the identifier of the node if and only if the vendor id is 0 (`lib/src/FirewireDevice.h:42-50`;
  `GuidMemberIsPartial`). `rev-eng/test-probe.c:72` prints the same member as the GUID.
- `probe_node` cannot see a failed read, because `read_config_rom` reports it as 1 and callers look for
  a negative number (`rev-eng/probe-node.c:34-54`). The library throws instead; the two agree exactly
  on the images the library can read, as long as the application meets no EAGAIN (`ParseWithBoth`, `BusyNode`).
- A textual leaf of fewer than two quadlets makes the text length wrap to almost 4 GiB
  (`lib/src/FirewireDevice.cpp:273`; `ShortLeafWraps`).
- The comment in `lib/src/Phantom.h:42-45` says that a claimed device is returned again; the code
  returns 0 for it (`FindPhantom`). That is also what the phantom_find test expects.
- The phantom_find scenario reports a device opened twice when two devices share the serial of the last
  one, or when that serial is 0, which the search takes to mean any, and there are two devices
  (`Run`). Its array holds 16 Phantoms, which it does not check; `ClaimAll` says when they are more.
- The Mac OS X `claimChannel` does not look whether the channel is claimed, so claims do not exclude
  each other (`ClaimsDoNotCount`).
- `initialise_device` ignores the outcome of its two allocations (`rev-eng/omni.c:381-382`), and the
  shutdown gives both channels back regardless, even those of somebody else (`OwnsBoth`,
  `StolenChannel`).
- The shutdown reads the control register without a retry. If that read is not answered and the write
  is, the whole register is cleared (`rev-eng/omni.c:641-643`; `DisableClearsOnlyEnable`).
- Removing an unknown handle from the trace table registers it, because the trace message looks its
  number up (`libraw1394-2.0.5-trace.patch:1772`; `RemoveExact`).

## Model

| member | source | states |
|---|---|---|
| `Words.NtohlOfHostLoad` | lib/src/FirewireDevice.cpp:107-109 | loading four bus bytes and swapping them gives their big-endian number |
| `Words.NtohlInjective` | lib/src/FirewireDevice.cpp:128 | comparing unswapped with an unswapped constant is comparing swapped with the swapped one |
| `IrmRegister.RegisterRoundTrip` | lib/src/FirewireDeviceLibraw1394.cpp:34-35 | the register built from a set of free channels offers exactly that set |
| `IrmRegister.TornRegister` | lib/src/FirewireDeviceLibraw1394.cpp:99 | quadlets read at two instants offer channels 0-31 of the first and 32-63 of the second |
| `IrmRegister.JoinedBit` | lib/src/FirewireDeviceLibraw1394.cpp:106-110 | bit 63 - c of the swapped and joined word is the free bit of channel c: bit 7 - c mod 8 of register byte c / 8 |
| `IrmRegister.FirstFreeChannel` | lib/src/FirewireDeviceLibraw1394.cpp:101-117 | swap in place, join and search return the least channel whose bit is set, and throw if and only if all 64 bits are clear |
| `ChannelProtocol.InvStep` | lib/src/FirewireDeviceLibraw1394.cpp:94-134 | each step of each client keeps the invariant: partition, history and what every client has seen |
| `ChannelProtocol.InvAlongRun` | lib/src/FirewireDeviceLibraw1394.cpp:94-134 | the invariant holds after every interleaved run |
| `ChannelProtocol.ChannelsArePartitioned` | lib/src/FirewireDeviceLibraw1394.cpp:94-134 | after every run each of the 64 channels is either free or owned, by one client only; the free ones are those that no client holds |
| `ChannelProtocol.ClaimThrowsOnlyIfTaken` | lib/src/FirewireDeviceLibraw1394.cpp:120-126 | a claim fails if and only if another client owns the channel, and then another client took it after this one had read the quadlet that holds its bit |
| `ChannelProtocol.ClaimOutcome` | lib/src/FirewireDeviceLibraw1394.cpp:120-126 | after every run: claimChannel ends with the client holding the channel if and only if no other client owned it; when it throws, another client took the channel after this one had read its quadlet; nothing else changes |
| `ChannelProtocol.ReleaseOutcome` | lib/src/FirewireDeviceLibraw1394.cpp:128-134 | after every run: releaseChannel leaves the channel free and held by nobody, and every other channel as it was |
| `ChannelProtocol.ReadShowsUnheld` | lib/src/FirewireDeviceLibraw1394.cpp:99 | after every run: a quadlet read shows exactly those of its 32 channels that no client holds at that instant, and changes nothing else |
| `ChannelProtocol.NextIsPossible` | lib/src/FirewireDeviceLibraw1394.cpp:94-134 | no client is ever stuck: after every run its next operation can take place |
| `ChannelProtocol.OthersUntouched` | lib/src/FirewireDeviceLibraw1394.cpp:94-134 | a step of one client leaves the holdings and the progress of the others alone |
| `ChannelProtocol.FreeAtIsPast` | lib/src/FirewireDeviceLibraw1394.cpp:94-134 | what the history says was free at an earlier instant was free then |
| `ChannelProtocol.SearchSeesTwoInstants` | lib/src/FirewireDeviceLibraw1394.cpp:94-118 | the search fails if and only if each half offered nothing at its own instant; else it chooses the least channel of the first half that offers one |
| `ChannelProtocol.FailedSearchWasOvertaken` | lib/src/FirewireDeviceLibraw1394.cpp:94-118 | in a failed search every channel that was free as the high quadlet was read lies in the low half and was taken by another client before the low quadlet was read |
| `ChannelProtocol.ChoiceIsFirstFree` | lib/src/FirewireDeviceLibraw1394.cpp:99-117 | the choice step of the protocol is the search in the register put together from the two reads, after every run |
| `ChannelProtocol.TornReadMissesFreeChannel` | lib/src/FirewireDeviceLibraw1394.cpp:94-118 | a run in which some channel is free at every instant and the search still fails |
| `Raw1394.ScriptKinds` | lib/src/CommunicationLibraw1394.cpp:49-93 | which scripts the results about failure-free and about prompt transactions cover: all of answers and EAGAINs, and all of answers |
| `Raw1394.ChunksCover` | lib/src/CommunicationLibraw1394.cpp:53-69 | ceil(n / 4) transactions, end to end, of 4 bytes and a last one of 1 to 4 |
| `Raw1394.RemoteNode.Read` | lib/src/CommunicationLibraw1394.cpp:49-71 | returns normally if and only if none of the transactions it used failed and all the bytes are there; then the buffer holds exactly the contiguous bytes, fetched by exactly those chunks; bytes behind the length stay untouched, no completed transaction reaches behind the last byte, any number of EAGAINs is ridden out, and it terminates |
| `Raw1394.RemoteNode.Write` | lib/src/CommunicationLibraw1394.cpp:78-93 | for any data: throws exactly on a failed transaction; otherwise the data are stored exactly if the transaction was answered, so that EAGAIN drops them and still returns normally |
| `Raw1394.StoredIsReadBack` | lib/src/CommunicationLibraw1394.cpp:78-93 | data that were stored are read back in the same order, and no other byte changes |
| `ConfigRom.LastIndexIsLast` | lib/src/FirewireDevice.cpp:180-213 | the entry that counts is the last one with its key, none if no entry has it |
| `ConfigRom.ScanStep` | lib/src/FirewireDevice.cpp:189-211 | scanning one more entry lets it win if it has the key and changes nothing otherwise, for stored values and for jump targets |
| `ConfigRom.UnitDirectoryBounded` | lib/src/FirewireDevice.cpp:200 | a unit directory lies behind the root header and ends below a fixed bound |
| `ConfigRom.TextualLeafBounded` | lib/src/FirewireDevice.cpp:209 | so does a textual leaf of at least two quadlets |
| `ConfigRom.ShortLeafWraps` | lib/src/FirewireDevice.cpp:273 | the text length is 4 * (length - 2) if and only if the leaf length is at least 2; below that it is almost 4 GiB |
| `RomBytes.MinimalRom` | lib/src/FirewireDevice.cpp:97-118 | the byte at 0xffff_f000_0400 is 4 for a general ROM; any other node is accepted with the next three bytes as vendor id and every other field blank |
| `RomBytes.MagicBytes` | lib/src/FirewireDevice.cpp:123-132 | a general ROM is accepted if and only if bytes 4 to 7 are 31 33 39 34 |
| `RomBytes.BusBytes` | lib/src/FirewireDevice.cpp:134-162 | the byte and the bits of each field of the bus information block; max_async_bwrite_payload is the number whose only bit is max_rec + 1 |
| `RomBytes.PayloadBit` | lib/src/FirewireDevice.cpp:144 | 2 << n has bit n + 1 set and no other |
| `RomBytes.LastEntryBytes` | lib/src/FirewireDevice.cpp:189-211 | of the entries whose first byte is a key the last one counts, with the other three bytes as its value, for fields and for jumps |
| `RomBytes.NoEntryBytes` | lib/src/FirewireDevice.cpp:180-211 | without an entry of that key the field is 0 and the jump absent |
| `RomBytes.RootBytes` | lib/src/FirewireDevice.cpp:164-187 | the root directory has as many entries as bytes 20 and 21 say, or the first 16 of them; node capabilities come from entry 0x0c |
| `RomBytes.UnitBytes` | lib/src/FirewireDevice.cpp:219-248 | the unit fields come from entries 0x12, 0x13 and 0x17 of the directory that entry 0xd1 leads to, all of it, and are 0 without one |
| `RomBytes.VendorBytes` | lib/src/FirewireDevice.cpp:250-280 | the vendor text is what follows the first 12 bytes of the leaf that entry 0x81 leads to, up to its end |
| `RomBytes.BoundBytes` | lib/src/FirewireDevice.cpp:200-280 | the bound on the reads of the parser and the textual leaves for which it holds, in bytes |
| `RomBytes.PhantomBytes` | lib/src/FirewireDevice.cpp:54-81 | which bytes make a Phantom: vendor id 00 0b 99 and 00 0b 99 00 at 0x1006_000c, with the quadlet at 0x1006_0010 as its serial; and which of them not answering makes it unreadable |
| `RomBytes.NoPhantomBytes` | lib/src/FirewireDevice.cpp:54-81 | a node with a wrong magic number is no Phantom, and one that does not answer for its ROM cannot be told |
| `FirewireDevice.Sentinels` | lib/src/FirewireDevice.cpp:219-250 | address 0 stands for an absent entry and for nothing else, and without a unit directory the unit fields stay 0 |
| `FirewireDevice.Device.ScanRoot` | lib/src/FirewireDevice.cpp:179-213 | last entry wins for node capabilities, unit directory and textual leaf; an exception only if an entry cannot be read; no read behind the entries |
| `FirewireDevice.Device.ScanUnit` | lib/src/FirewireDevice.cpp:219-248 | the same for the three unit fields; nothing else of the ROM changes |
| `FirewireDevice.Device.ReadText` | lib/src/FirewireDevice.cpp:250-280 | stores the bytes behind the leaf header, wrapping length included, and reads nothing behind them |
| `FirewireDevice.Device.ReadLinked` | lib/src/FirewireDevice.cpp:215-280 | follows the two jumps; throws, with failure-free reads, if and only if one leads to unreadable bytes |
| `FirewireDevice.Device.ReadConfigRom` | lib/src/FirewireDevice.cpp:97-283 | stores exactly the interpretation of the memory, rejects exactly a wrong magic number, and throws, with failure-free reads, if and only if a needed byte is unreadable; whatever the outcome, every completed read ends below a fixed bound unless the textual leaf is shorter than two quadlets |
| `FirewireDevice.Device.GetConfigRom` | lib/src/FirewireDevice.cpp:83-95 | the ROM is read once: later calls do no transaction and give the same verdict; an exception leaves it unread |
| `FirewireDevice.Device.IsSensableDevice` | lib/src/FirewireDevice.cpp:54-81 | true if and only if vendor id and device register both say SensAble; when it throws |
| `FirewireDevice.Device.Examine` | lib/src/Phantom.cpp:53-62 | whatever comes back without an exception is what the memory identifies the node as; with failure-free reads an exception means that it does not answer |
| `RomRoundTrip.RoundTrip` | lib/src/FirewireDevice.cpp:97-283 | for every ROM with up to 16 root entries and a unit directory and textual leaf anywhere a 24-bit jump reaches, parsing its big-endian encoding recovers every field and the vendor bytes and touches nothing unreadable |
| `RomBytes.EncodedPhantom` | lib/src/Phantom.cpp:53-66 | the encoding of any ROM with vendor id 0x000b99 beside a matching device register is identified as a Phantom with its serial |
| `RomBytes.EncodedPayload` | lib/src/FirewireDevice.cpp:144 | encoding max_rec and parsing it gives the number whose only bit is max_rec + 1 |
| `RomRoundTrip.GuidJoined` | lib/src/FirewireDevice.cpp:147-162 | the 64-bit identifier is vendor_id, guid_hi and guid_lo joined |
| `RomRoundTrip.GuidMemberIsPartial` | lib/src/FirewireDevice.h:42-50 | the 64-bit guid member of the structure is the identifier if and only if the vendor id is 0 |
| `RomRoundTrip.BusFields` | lib/src/FirewireDevice.cpp:139-145 | the slices of the capability quadlet are the encoded fields, whatever the bits between them |
| `RomRoundTrip.UnitRoundTrip` | lib/src/FirewireDevice.cpp:219-248 | the parser finds the encoded unit directory wherever the root directory points |
| `RomRoundTrip.TextRoundTrip` | lib/src/FirewireDevice.cpp:250-280 | and the encoded vendor text |
| `RomRoundTrip.SerialiseThenParse` | lib/src/FirewireDevice.cpp:97-283 | laying a ROM out contiguously, jump entries computed, and parsing the bytes gives it back |
| `ProbeNode.ReadConfigRomQuadlet` | rev-eng/probe-node.c:34-54 | one attempt: the big-endian quadlet if it is answered and readable, else 0, and no error |
| `ProbeNode.ScanRoot` | rev-eng/probe-node.c:131-158 | under any fate of the reads the last entry seen wins, on 32-bit offsets that do not wrap |
| `ProbeNode.ScanUnit` | rev-eng/probe-node.c:160-186 | the unit fields are those of the last entries seen |
| `ProbeNode.JumpOffsets` | rev-eng/probe-node.c:148-215 | offset 0 stands for an absent entry only, and no offset that is used comes near 2^32, for every root directory |
| `ProbeNode.Probe` | rev-eng/probe-node.c:56-220 | its result for every memory and every fate of its reads: an unanswered read counts as 0, and only a wrong magic number as seen is an error |
| `ProbeNode.PromptResult` | rev-eng/probe-node.c:56-220 | with every read answered it rejects exactly the ROMs the interpretation rejects; the fields agree with it, the vendor text too if the leaf can be read |
| `ProbeNode.ParseWithBoth` | rev-eng/probe-node.c:56-220 | the library, riding out EAGAINs, throws exactly on images that are not fully readable; on all others both parsers decide alike and give equal fields and text if the application meets no EAGAIN |
| `ProbeNode.SilentNode` | rev-eng/probe-node.c:39-50 | a node that answers nothing is accepted with vendor 0 by the application and is not readable to the library |
| `ProbeNode.BusyNode` | rev-eng/probe-node.c:39-50 | one EAGAIN on the first read makes the application accept any node with vendor 0, whatever the node holds |
| `DeviceRegistry.BusKinds` | lib/src/DeviceIteratorLibraw1394.cpp:72-75 | which buses the results cover: any number of ports with at most 64 nodes each, and for those without failures any EAGAINs |
| `DeviceRegistry.NodeIdIsOr` | lib/src/DeviceIteratorLibraw1394.cpp:72-75 | bit for bit, the node id of the model is the 16-bit node number or 0xffc0 |
| `DeviceRegistry.NodeIdInjective` | lib/src/DeviceIteratorLibraw1394.cpp:72-75 | it is injective on node numbers below 64 |
| `DeviceRegistry.NodeIsAtItsId` | lib/src/DeviceIteratorLibraw1394.cpp:72-75 | each node of a port answers under its own node id, and no other id answers |
| `DeviceRegistry.CloseExactIffLast` | lib/src/FirewireDeviceLibraw1394.cpp:65-78 | closing leaves exactly the others, in order, if and only if the device was opened last; otherwise the last one is lost |
| `DeviceRegistry.ClosedAt` | lib/src/FirewireDeviceLibraw1394.cpp:65-78 | slot by slot what closing makes of the table, wherever the device is in it |
| `DeviceRegistry.StaysIfLastButOne` | lib/src/FirewireDeviceLibraw1394.cpp:65-78 | a closed device is still in the table if and only if it was opened last but one |
| `DeviceRegistry.Registry.Open` | lib/src/FirewireDeviceLibraw1394.cpp:44-63 | the table becomes the old one with the new device behind it, also when it grows |
| `DeviceRegistry.Registry.Close` | lib/src/FirewireDeviceLibraw1394.cpp:65-78 | the in-place shift gives the stated table; closing the last device takes it off |
| `DeviceRegistry.Registry.DeviceIsOpen` | lib/src/FirewireDeviceLibraw1394.cpp:86-92 | membership of (port, node) among the open devices |
| `DeviceIterator.VisitsAscend` | lib/src/DeviceIteratorLibraw1394.cpp:55-81 | visits are in strictly ascending (port, node) order |
| `DeviceIterator.VisitsAreTheNodes` | lib/src/DeviceIteratorLibraw1394.cpp:59-70 | the visits are exactly the existing nodes if and only if no later port is empty |
| `DeviceIterator.VisitsExactly` | lib/src/DeviceIteratorLibraw1394.cpp:59-70 | the visits are the existing nodes and, for each later port without nodes, node 0 |
| `DeviceIterator.PassIsExact` | lib/src/DeviceIteratorLibraw1394.cpp:55-81 | then what a pass yields is exactly the existing nodes that are not open, ascending |
| `DeviceIterator.DeviceIterator.Next` | lib/src/DeviceIteratorLibraw1394.cpp:55-81 | opens the first place still to come that is not open and goes on behind it; NULL, now and on every later call, when there is none |
| `DeviceIterator.AnyUse` | lib/src/FirewireDeviceLibraw1394.cpp:44-92 | over every sequence of taking devices from any of several iterators, old and new, and closing the last-opened one, across all growths of the table: which place every take opens, or that it gets none, and which places are open is determined by the order of the uses; the used slots are exactly the live devices in open order and no two share (port, node) |
| `PhantomSearch.FullPass` | lib/src/DeviceIteratorLibraw1394.cpp:55-81 | whichever devices the caller keeps and closes, a pass yields exactly the places not open at its start, each once, in order, and leaves the table with the kept ones added |
| `PhantomSearch.PassStep` | lib/src/DeviceIteratorLibraw1394.cpp:72-79 | devices kept on the way do not change what is still to be yielded |
| `PhantomSearch.NothingLeft` | lib/src/DeviceIteratorLibraw1394.cpp:72-79 | after a pass that keeps everything a pass yields nothing |
| `PhantomSearch.PassTwice` | lib/src/DeviceIteratorLibraw1394.cpp:55-81 | after a pass whose caller keeps everything, a second pass over the same bus gets no device |
| `PhantomSearch.FirstStopIsFirst` | lib/src/Phantom.cpp:53-70 | every place before the stop is open already, no SensAble device or one with another serial; the stop is a SensAble device with the serial, or any for 0, or does not answer |
| `PhantomSearch.FindPhantom` | lib/src/Phantom.cpp:46-75 | returns the first device in (port, node) order that is not open, is SensAble and has the serial (any for 0), and the table is the old one plus that device; 0 with the table unchanged if there is none; an exception if a node on the way does not answer or, no later than that, a transaction fails for good, with that device left in the table |
| `PhantomFindTest.PhantomsAre` | lib/tests/phantom_find.cpp:39-47 | the listed Phantoms are the places not open with a SensAble device of the serial, or any for 0 |
| `PhantomFindTest.ClaimOne` | lib/tests/phantom_find.cpp:41-47 | where a search stops is the first Phantom left, and opening it leaves exactly the others |
| `PhantomFindTest.ClaimAll` | lib/tests/phantom_find.cpp:39-47 | the claim-all loop, with its two serial reads for each Phantom, terminates and opens every Phantom in order; it raises if a node that is not open does not answer, and otherwise only if a transaction fails for good; it runs out of its array only if there are more than 16 Phantoms, and does not complete then |
| `PhantomFindTest.FindOne` | lib/src/Phantom.cpp:46-75 | a search takes the first Phantom that is not open, and leaves the list of the others as it is; it finds none exactly if the list is empty and every node answers, exceptions apart |
| `PhantomFindTest.ReleaseAll` | lib/tests/phantom_find.cpp:51-56 | releasing in reverse order restores the table |
| `PhantomFindTest.FindTwice` | lib/tests/phantom_find.cpp:58-72 | searching twice for a serial finds nothing, succeeds or opens two devices as one, exactly as no, one or several devices have it, unless it raises |
| `PhantomFindTest.Run` | lib/tests/phantom_find.cpp:33-80 | the outcome of the scenario for every bus and table: with at most 16 Phantoms, success exactly when every node answers and the last Phantom's serial is fit by one device, or there are none; with more the array is overrun, if no node raises first; a raise otherwise only if a transaction fails for good |
| `Irm.ResourceManager.GetFreeChannel` | lib/src/FirewireDeviceLibraw1394.cpp:94-118 | under any moves of the others and any failing transactions: succeeds if and only if both reads are served and their halves, each as of its own instant, offer a channel; the least one then, never one of the caller's own; and what the manager is like afterwards |
| `Irm.EventKinds` | lib/src/FirewireDeviceLibraw1394.cpp:94-134 | which scripts of the manager the results without failures cover: whatever the others come to hold |
| `Irm.SeenThen` | lib/src/FirewireDeviceLibraw1394.cpp:94-118 | whatever the others hold at the two reads: channels 0 to 31 are seen as of the first, 32 to 63 as of the second |
| `Irm.CreatedThen` | lib/src/FirewireDeviceLibraw1394.cpp:94-126 | whatever they hold at the three transactions: the least channel seen is claimed unless they hold it by the third |
| `Irm.ClaimedThen` | lib/src/FirewireDeviceLibraw1394.cpp:120-126 | the claim and what the others hold afterwards, for each fate of its transaction |
| `Irm.ReleasedThen` | lib/src/FirewireDeviceLibraw1394.cpp:128-134 | the same for the release |
| `Irm.CreatedIsLeast` | lib/src/FirewireDeviceLibraw1394.cpp:94-126 | a channel got by search and claim is a least one seen, was held by nobody here, and is the only change |
| `Irm.CreatedIff` | lib/src/FirewireDeviceLibraw1394.cpp:94-126 | search and claim fail exactly if a read or the claim is not served, nothing is seen, or others hold the least channel by the time of the claim |
| `Irm.ResourceManager.Claim` | lib/src/FirewireDeviceLibraw1394.cpp:120-126 | succeeds if and only if the transaction is served and nobody holds the channel at that instant; adds exactly this channel, or nothing |
| `Irm.ResourceManager.Release` | lib/src/FirewireDeviceLibraw1394.cpp:128-134 | succeeds if and only if the transaction is served and somebody holds the channel; frees exactly this channel, whoever holds it |
| `PhantomIsoChannel.EnableMasks` | lib/src/PhantomIsoChannel.cpp:116-119 | setting and clearing bit 3 leaves the other control bits alone, masking with it clears them |
| `PhantomIsoChannel.StopDoesNotDisable` | lib/src/PhantomIsoChannel.cpp:149-157 | after stop iso transfers are disabled if and only if they were before |
| `PhantomIsoChannel.StopTwice` | lib/src/Phantom.cpp:131-135 | stopping a stopped device changes nothing more, whichever of the stops had an effect |
| `PhantomIsoChannel.StopAgain` | lib/src/Phantom.cpp:131-135 | two stops have the effect of one whose write lands if either lands |
| `PhantomIsoChannel.IsoChannel.SetReceiveChannel` | lib/src/PhantomIsoChannel.cpp:67-93 | when it returns normally, as a condition on the memory and the coming transactions, whatever they are; then the register holds the channel if and only if the last write is answered at once, and 0x40 otherwise; a device that ignores the register is always detected |
| `RegisterFates.HandshakeInSteps` | lib/src/PhantomIsoChannel.cpp:67-93 | for every fate of the five transactions and every number of EAGAINs: it gets through exactly if the first write is answered, or met EAGAIN with the channel in register 0x1001 already, the reads and the probe are answered and the last write does not fail |
| `RegisterFates.HandshakePadded` | lib/src/PhantomIsoChannel.cpp:67-93 | transactions that are answered behind the end of a script make no difference, so that the fates above are all there are |
| `RegisterFates.DroppedFirstWrite` | lib/src/PhantomIsoChannel.cpp:67-79 | an EAGAIN on the first write goes through only if the register holds the channel already, and exactly then if all else is answered |
| `RegisterFates.StartInSteps` | lib/src/PhantomIsoChannel.cpp:86-124 | the rest of start for every fate of its transactions: 0xc0 in 0x1083, 0 in 0x1082, the reads answered, and the last write not failing if bit 3 of 0x1087 is clear |
| `RegisterFates.ReceiveStartInSteps` | lib/src/PhantomIsoChannel.cpp:67-124 | the two bytes that start of the receive channel changes, for every fate of its last writes |
| `RegisterFates.TransmitStartInSteps` | lib/src/PhantomIsoChannel.cpp:86-124 | the two bytes that start of the transmit channel changes, for every fate of its writes |
| `RegisterFates.StopInSteps` | lib/src/PhantomIsoChannel.cpp:126-160 | when stop goes through, for every fate of its four transactions, and the byte 0x1087 afterwards: 8 if bit 3 was set and the write is answered, else as before |
| `RegisterFates.StatusBytes` | lib/src/PhantomIsoChannel.cpp:96-112 | the status is fine exactly with 0xc0 in register 0x1083 and 0 in 0x1082 |
| `RegisterFates.EnableBit` | lib/src/PhantomSpec.h:27-28 | enabling adds bit 3, disabling takes it away, masking with it leaves nothing else |
| `PhantomIsoChannel.IsoChannel.Start` | lib/src/PhantomIsoChannel.cpp:52-124 | when it returns normally, as a condition on the memory and the coming transactions, whatever they are; the whole device memory then, each write carried out exactly if it was answered at once |
| `PhantomIsoChannel.DroppedFinalWrite` | lib/src/PhantomIsoChannel.cpp:91-93 | for every channel: an EAGAIN on the fifth transaction makes start return normally with 0x40 in the receive register |
| `PhantomIsoChannel.IsoChannel.Stop` | lib/src/PhantomIsoChannel.cpp:126-160 | throws if and only if a status register is not 0xc0 and 0x00 or a transaction fails for good; the memory afterwards |
| `PhantomIsoChannel.IsoChannel.Destroy` | lib/src/PhantomIsoChannel.cpp:43-50 | stops the device and gives the channel back, and keeps the channel exactly if stop throws or the release is not served, under any scripts of device and manager |
| `PhantomIsoChannel.Create` | lib/src/PhantomIsoChannel.cpp:32-41 | its outcome and the manager afterwards are those of search and claim under any script of the manager: the least channel seen, or a failure exactly as in `CreatedIff` |
| `PhantomSession.Phantom.TransmitOrRollBack` | lib/src/Phantom.cpp:102-111 | without a transmit channel the receive channel is given back exactly if the stop of the rollback goes through and the release is served, under any scripts; with failure-free transactions that is at a healthy device |
| `PhantomSession.Phantom.AcquireChannels` | lib/src/Phantom.cpp:97-118 | started exactly if both channels can be claimed in turn; what is held otherwise, whatever transactions fail; with nobody else active the two least free channels |
| `PhantomSession.Phantom.StartPhantom` | lib/src/Phantom.cpp:90-122 | under any scripts of device and manager: started exactly if both channels can be claimed in turn, also when a handshake throws, and the channels left held when not; a second start throws and changes nothing; on a normal return, under any EAGAINs, the receive register holds the channel or 0x40, the transmit register the channel or what it held, and iso is enabled if it was or one of the two enabling writes took effect, every other byte as before |
| `PhantomSession.ConfiguredIffAllLanded` | lib/src/Phantom.cpp:120-121 | the device is fully configured if and only if every write that was needed took effect |
| `RegisterFates.ConfiguredBytes` | lib/src/PhantomSpec.h:25-28 | a configured device has the channels in 0x1000 and 0x1001, bit 3 of 0x1087 set and every other byte as before |
| `PhantomSession.ToldInTwoSteps` | lib/src/Phantom.cpp:120-121 | the two handshakes in a row leave exactly that memory |
| `PhantomSession.Phantom.StopPhantom` | lib/src/Phantom.cpp:124-136 | returns normally if and only if it gives back exactly the two channels, which it does on a healthy device although stop runs twice for each; otherwise it throws and keeps both, or the second, depending on which of the four stops and two releases goes through, under any scripts; the memory is that after one stop, whose write lands if one of the four lands |
| `PhantomSession.StopsKeep` | lib/src/Phantom.cpp:131-135 | the two stops change nothing on which the success of the two deletions depends |
| `SessionRuns.StartLoses` | lib/src/Phantom.cpp:90-122 | for every state of manager and device: a start leaves a channel allocated that nobody holds if and only if it gets the first channel, not the second, and the rollback's stop or release fails; then exactly the first one |
| `SessionRuns.StopLoses` | lib/src/Phantom.cpp:124-136 | a stop ends stopped and loses both channels, the second or none, according to which of its stops and releases go through |
| `SessionRuns.StartCallThen` | lib/src/Phantom.cpp:90-122 | with nobody else active: a start takes the two least free channels, the receive channel first; with a single one free it ends stopped and keeps that one if and only if the rollback's stop fails |
| `SessionRuns.StopCallThen` | lib/src/Phantom.cpp:124-136 | the receive channel is given back if the first three stops and the first release go through, the transmit channel if the fourth stop and the second release do as well |
| `SessionRuns.RunAccounts` | lib/src/Phantom.cpp:90-136 | after every sequence of starts and stops, under any scripts, the channels of the process are those of before, those lost in the calls and the two of a started Phantom, each in one of these parts only |
| `SessionRuns.ConservedIff` | lib/src/Phantom.cpp:90-136 | a run conserves the channels if and only if no call of it loses one |
| `SessionRuns.FairKinds` | lib/src/Phantom.cpp:90-136 | which moments the results about fair runs cover: any contents of the five registers and any EAGAINs |
| `SessionRuns.FairLoss` | lib/src/Phantom.cpp:90-136 | when no transaction fails for good, a start loses a channel exactly if it rolls back at an unhealthy device, and a stop both exactly if the device is unhealthy |
| `SessionRuns.SessionInvariant` | lib/src/Phantom.cpp:90-136 | over every such run, whatever the registers of the device show before each call and whatever other users claim and give back of their own: the channels are conserved if and only if the status registers are healthy whenever stop runs, so that starts whose handshakes fail do no harm |
| `SessionRuns.AnyCalls` | lib/src/Phantom.cpp:90-136 | any sequence of calls under any scripts ends in the state these results are about, and tells after each call whether the Phantom is started |
| `SessionRuns.ConservingCalls` | lib/src/Phantom.cpp:90-136 | with a healthy device at stops and at starts that end stopped, handshakes failing or not: exactly two channels more are held while started, and none when stopped |
| `SessionRuns.LostInRollback` | lib/src/Phantom.cpp:102-111 | a run that loses a channel in a rollback |
| `SessionRuns.LostInStop` | lib/src/Phantom.cpp:130-135 | a run that loses both channels in a stop |
| `Omni.WriteDataChar` | rev-eng/easy-com.c:31-43 | fails if and only if a transaction it used failed or the address is unknown; otherwise the byte has been written, after any number of EAGAINs |
| `Omni.ReadDataChar` | rev-eng/easy-com.c:96-105 | the same for reading a byte |
| `Omni.GetExpectedChar` | rev-eng/easy-com.c:60-72 | succeeds if and only if the register holds the expected value, errors apart |
| `Omni.FindTwoChannels` | rev-eng/omni.c:351-370 | the two lowest free channels; -1 exactly where there is none, also when the first search runs off the end |
| `Omni.WriteAndExpect` | rev-eng/omni.c:390-407 | success leaves the byte in the register, or the register held it and ignores writes; with failure-free transactions it is refused exactly if the register ignores writes and holds something else |
| `Omni.TellReceiveChannel` | rev-eng/omni.c:390-426 | success leaves the channel in the receive register, and a device that ignores the register is always refused |
| `Omni.ConfigureDevice` | rev-eng/omni.c:384-453 | success leaves both channel registers set, the enable bit set and every other byte as before, and is refused exactly to an unhealthy device or one that ignores the receive register |
| `Omni.SetUpBytes` | rev-eng/omni.c:384-453 | the bytes after the set-up: 0x1000, 0x1001 and bit 3 of 0x1087, for any registers that ignore writes |
| `Omni.InitialiseDevice` | rev-eng/omni.c:338-466 | for every fate of the manager: the snapshot is what was free when the register was read; success implies the full configuration for its two lowest channels, under any finite pattern of EAGAINs; it fails if and only if the snapshot fails, fewer than two channels are free or the device is not in order; and what the two ignored allocations leave owned |
| `Omni.OwnsBoth` | rev-eng/omni.c:381-382 | each channel is owned if and only if its allocation is served and nobody else holds it by then |
| `Omni.StolenChannel` | rev-eng/omni.c:381-382 | a run in which another user takes the receive channel, the set-up succeeds with it, and the shutdown takes it away from its owner |
| `Omni.Shutdown` | rev-eng/omni.c:622-658 | for every fate of the transactions: the exact memory, and the channels: each served release frees its channel, whoever holds it |
| `Omni.DisabledBytes` | rev-eng/omni.c:640-643 | byte 0x1087 after the two attempts of the shutdown, for each of their fates |
| `Omni.DisableClearsOnlyEnable` | rev-eng/omni.c:640-643 | the control register keeps its other bits if and only if the unretried read is answered, or the write has no effect, or there is nothing to lose |
| `Omni.InitialiseThenShutdown` | rev-eng/omni.c:338-658 | under any EAGAINs, any registers that ignore writes and any moves of other users: when it works out, and then the held channels are as before and all of the memory is known |
| `Omni.BothFoundIffTwoFree` | rev-eng/omni.c:357-375 | the search finds both channels if and only if two are free |
| `Omni.SamePair` | rev-eng/omni.c:357-375 | with nobody else active the application's search and the library's acquisition choose the same pair and both fail if and only if fewer than two channels are free |
| `OmniLoop.FieldsGiveWord` | rev-eng/omni.c:583-586 | the three field assignments turn any of the four status words into the one for the sample |
| `OmniLoop.MotorsFollowButton1` | rev-eng/omni.c:584 | the status word is one of 0x53c0, 0x53c2, 0x53c9, 0x53cb and has motors on if and only if button 1 is pressed |
| `OmniLoop.StatusBits` | lib/src/PhantomSpec.h:68-70 | the buttons are bits 0 and 1 and docking is bit 2 of the status byte, active when clear; no other bit matters to any of them |
| `OmniLoop.WordBits` | rev-eng/omni.c:583-586 | the status word is 0x53c0 with bits 0 and 3 for button 1 and bit 1 for button 2 |
| `OmniLoop.ReleasesCount` | rev-eng/omni.c:588-602 | the bus resets are counted by the samples in which bit 1 is set after it was clear |
| `OmniLoop.FedThen` | rev-eng/omni.c:570-582 | a ready device without a new sample is processed with the last one again, at first 0 |
| `OmniLoop.Application.Process` | rev-eng/omni.c:570-616 | one device in one round: word, click flag and reset count are those of the samples processed so far, for new and repeated samples; fails exactly on an iteration error, with what has been processed by then |
| `OmniLoop.Application.Iterate` | rev-eng/omni.c:535-620 | one round of the loop for all devices, and exactly when it is the last one and why |
| `OmniLoop.Application.Run` | rev-eng/omni.c:535-620 | over every run each device has been processed with exactly the samples that the rounds deliver, up to the failing device of a failed round; bus resets equal the pressed-to-released transitions of device 0's button 2; every word is that of its last sample; the loop ends normally the first time the samples of device 0 end with bit 2 clear after one with bit 2 set, and not before, and by time-out or error exactly at such a round |
| `OmniLoop.Grown` | rev-eng/omni.c:537-620 | one more sample either meets the end condition for the first time or keeps the loop pending |
| `MacChannels.TestIsMembership` | lib/src/FirewireDeviceMacOSX.cpp:62 | the mask test is membership, for channel 31 too although it looks at 33 bits |
| `MacChannels.ClaimAddsChannel` | lib/src/FirewireDeviceMacOSX.cpp:70-74 | claiming adds the channel to the represented set and keeps bits 31 to 63 together |
| `MacChannels.ReleaseRemovesChannel` | lib/src/FirewireDeviceMacOSX.cpp:75-78 | releasing removes it and keeps them together |
| `MacChannels.MaskIsSet` | lib/src/FirewireDeviceMacOSX.cpp:57-78 | over every sequence of claims and releases the mask refines a set over 0 to 31 |
| `MacChannels.ClaimsDoNotCount` | lib/src/FirewireDeviceMacOSX.cpp:70-78 | two claims and one release leave the channel free |
| `MacChannels.Allocator.GetFreeChannel` | lib/src/FirewireDeviceMacOSX.cpp:59-68 | the least unclaimed channel; throws if and only if all 32 are claimed |
| `HandleTable.Tracer.GetHandleNumber` | libraw1394-2.0.5-trace.patch:1735-1752 | returns the active slot of the handle, or appends one, or -1 exactly if it is unknown and all 256 slots are used |
| `HandleTable.Tracer.RemoveHandleNumber` | libraw1394-2.0.5-trace.patch:1763-1773 | deactivates the slot of a known handle; an unknown one is registered by the trace message |
| `HandleTable.RunKeeps` | libraw1394-2.0.5-trace.patch:1735-1773 | over every run no handle is active twice, slots keep their handle and an inactive slot stays inactive |
| `HandleTable.NumberIsStable` | libraw1394-2.0.5-trace.patch:1738-1740 | between two lookups without a removal the number is the same |
| `HandleTable.RemovedPointerGetsFreshNumber` | libraw1394-2.0.5-trace.patch:1742-1751 | after a removal the same pointer gets a number beyond all numbers given so far |
| `HandleTable.NumberIsNeverReused` | libraw1394-2.0.5-trace.patch:1742-1770 | a number names one pointer, for one stretch of its life |
| `HandleTable.RemoveExact` | libraw1394-2.0.5-trace.patch:1763-1773 | a handle is inactive after its removal if and only if it was known or the table is full |

## Left out

- Isochronous streams: DMA, `select`, `fcntl`, `startRecvIsoTransfer`, `startXmitIsoTransfer`, `stopIsoTransfer`, packet contents other than the status byte, and real time.
- `Irm.ResourceManager.GetFreeChannel`: EAGAIN on the manager's register is not told apart, because the retrying read that hides it is proved in `Raw1394`; a transaction of the manager is served or fails for good.
- `Raw1394.RemoteNode.Read`: the position is an unbounded integer; the original's `int` would overflow from 2^31 bytes on, which only the wrapped length of a short textual leaf can ask for.
- `PhantomFindTest.Run`: the array of claimed devices is a sequence of at most its 16 entries; what the original does after writing behind them is not modelled.
- `PhantomSearch.FindPhantom`: if some transaction fails for good, it is not said which of the searched places ends the search, only that it is one of them and no later than the stop; and a place gets the same script for every handle opened on it.
- `FirewireDevice.Device.ReadConfigRom`: the bound on reads is about those that were answered; a failed one leaves no trace in the model. When some transaction fails for good, it is not said whether the call throws, only what a normal return means.
- Bus resets and topology changes: the handler in `rev-eng/omni.c:189-207`, changes of node ids and of the resource manager, and the number of ports, which the iterator caches.
- The set-up loop over several devices and its device scan (`rev-eng/omni.c:468-533`), with its limit of three devices; set-up and shutdown are modelled for one device, the control loop for any number.
- `ProbeNode.Probe`: a vendor text whose block read fails is unspecified, as is the buffer of the original. The fields `magic_num` and `motu_fw_audio`, which nothing reads, are not part of the result.
- `MacChannels.Allocator.GetFreeChannel`: machine words are sets of bit numbers, with sign extension and 32-bit complement written out on sets.
- Hosts other than little-endian ones with 64-bit `long`.
- `get_ieee1394_handle_number` and the logging wrappers of the patch.
- Memory that is leaked, used after it was freed or could not be allocated; a second `stopPhantom` after an exception that hits a half-deleted channel.
- Printing, `show_data`, `receivedData`, minimal-test, CommunicationMacOSX, DeviceIteratorMacOSX and plain getters.
