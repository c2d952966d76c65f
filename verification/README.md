# bpfilter in Dafny

This project models the parts of bpfilter whose correctness is hard to see from any single
function, and proves that they do what the rest of the system relies on.

**From a chain to a running filter.** A chain of rules is compiled to BPF bytecode: a prologue
that finds the packet's headers, code for every matcher, rule effects (mark, log, counter) and
verdicts, and the policy. Jumps are back-patched, switches lowered, map descriptors and calls
fixed up, and the ELF stubs the program calls are appended. `Bpf` gives the instructions a
meaning (RFC 9669: sections 4.1, 4.2 and 4.3 for arithmetic, byte swaps and jumps, 5.1 for
loads and stores, 5.4 for two-slot loads); `Reference` and `Compiler.Filter` say without any
code what a chain does with a packet, and `Evaluation` says it once more without recursion, by the
positions of the rules. The end point is `Build.BuildProgram`: the image it returns decides every
packet, for every behaviour of the kernel, exactly as `Compiler.Filter` does, changes the same
counters, mark and log, and ends after at most one step per instruction; the kernel (`Kernel`)
passes exactly the packets that are accepted.
`Counters` extends this to whole packet sequences, `Jumps` says where control can go.

**Messages.** Chains travel between the command line tool and the daemon as MessagePack. The
writer uses a paged builder for containers of unknown size; the reader is an iterative parser
with a stack and a byte budget. `Msgpack` has one recursive encoder and decoder, and `Formats` the
formats of the specification as a relation: the decoder reads exactly that relation, and what is
encoded is always the only shortest encoding. `Builder`
proves that the paged walk writes exactly the encoding, `TreeParser` that the parser accepts
exactly what the decoder accepts and builds exactly its tree, `Serial` that chains come back
as they were, `Framing` that the socket transfer is lossless; `Delivery` puts them together: a
chain packed, sent, received, parsed and looked up is the chain that was sent.

**The daemon.** `Registry` is the registry of chains as a state machine in which every kernel
call may fail; `Daemon` has the request handlers as they run, proved to take exactly those
steps. `LinkedList` is the linked list the daemon keeps its objects in, proved to behave like the
sequences used in the other modules; `Printer` is the string table of a program.

Chains, matchers, hooks and requests are values (`datatype`); the program under construction,
the printer, the list, the dynamic buffer, the message writer, the builder, the tree parser and
the daemon are classes whose methods are proved against functions on values. `dafny verify
dfyconfig.toml` checks everything.

## What the code does differently from what it says

The model follows the code. For each of these a theorem states the exact condition under which the
promise is kept, and where that does not already show one, a lemma gives an input on which it is
broken.

- Matchers see classified protocols: an unsupported ethertype or transport protocol is 0 to them,
  so `meta.l4_proto eq 47` misses GRE, `not 47` matches it, and `eq 0` matches every unsupported
  protocol. `meta.iface` loads 16 bits of a 32-bit index, `meta.mark` compares against a
  sign-extended immediate, port 0 reads as "no port", and `meta.iface` and `meta.l3_proto` ignore
  their operator; other tests take an operator without meaning for `not` (`Promise.HoldsAsPromised`,
  `GreIsMisread`, `ArpIsMisread`, `PortZeroIsMisread`, `OperandsCutOff`, `OtherOperators`).
- Matchers see what the walker finds, not what RFC 8200 has: behind a fragment header with a set
  reserved byte, behind a seventh extension header or a header the kernel does not show, ports and
  protocols are read in the wrong place or not at all, and the bytes of a later fragment are read as
  ports (`Promise.PacketAsPromised` and `CleanIsSeen` give the exact guard on packets,
  `HoldsAsPromised` on packet and payload; `ReservedByteHidesPort`, `SeventhHeaderHides`,
  `LaterFragmentIsMisread`).
- Programs on cgroups take the network protocol from the socket's family, so an IPv4 packet on an
  IPv6 socket is read as IPv6 (`Promise.ParsedIsClassified`, `MappedAddressIsMisread`).
- Generating a `meta.mark` matcher for XDP calls an operation XDP programs do not have; validation
  excludes it, but an update of a chain does not validate (`Generator.GenMatcher`, `GenRule`).
- The extension-header mask at `src/bpfilter/cgen/stub.c:36` has bits 0, 11, 47, 48, 59 and 60;
  the comment at line 254 lists 0, 43, 44, 50, 51 and 60. Packets whose first extension header is a
  routing, fragment or authentication header are not walked (`Routing.RoutingAsDocumented`,
  `FragmentedTcpIsMissed`).
- The recording extension-header walker returns the type of the header it could not read, the
  plain one returns 0 as documented (`Ipv6Walk.WalkersAgree`, `WalkersDiffer`).
- Both walkers add the reserved byte of a fragment header to its length of 8
  (`Ipv6Walk.WalkFollowsRfc`, `ReservedByteMisleads`).
- A switch without a default falls into its first case (`Switch.SwitchWithoutDefault`). Its offsets
  are cut to 16 bits with only a warning (`SwitchGen.LoweredIsSwitch`).
- The power-of-two rounding smears over 32 bit positions only (`Rounding.RoundingIsExactIff`,
  `RoundingAbove32Bits`).
- The tree parser steps over a map header with a 32-bit product, which wraps for maps of 2^31 pairs
  or more; data of 2^32 bytes or more can hold one (`TreeParser.ParseTree`, `HugeMapIsMisread`).
- The builder's reader looks for the next record where the writer put it only if no record fits
  into a page tail shorter than 32 bytes; 32-byte records, as on 64-bit hosts, are just large
  enough (`PagedLayout.ReadersFindRecords`, `Builder.SmallRecordsAreLost`).
- A matcher without payload is packed but not accepted back (`Serial.MatcherBack`,
  `EmptyPayloadIsRefused`).
- Setting a chain removes a chain of the same name whichever front owns it, and before the new
  one is known to load; a failed attach leaves the daemon in the client's namespaces
  (`Registry.ChainSetAcrossFronts`, `ChainSetLosesTheOld`, `BackHome`).
- An empty transfer sends no message at all, so its receiver waits (`Framing.Transfer`).

## Model

| member | source | states |
|---|---|---|
| `Ipv6Walk.ParseIpv6Eh` | src/bpfilter/bpf/parse_ipv6_eh.bpf.c:17-53 | the plain walker's protocol and transport offset are those of the recursive header chain, 0 when a header cannot be read |
| `Ipv6Walk.ParseIpv6Nh` | src/bpfilter/bpf/parse_ipv6_nh.bpf.c:32-85 | the recording walker's protocol, offset and mask are those of the recursive header chain |
| `Ipv6Walk.MaskIsTheSetOfHeaders` | src/bpfilter/bpf/parse_ipv6_nh.bpf.c:32-85 | a bit of the mask is set exactly when that header type was crossed |
| `Ipv6Walk.TraceBounds` | src/bpfilter/bpf/parse_ipv6_nh.bpf.c:32-85 | a walk of n headers moves forward by at most n * 2048 bytes and crosses only extension headers |
| `Ipv6Walk.WalkersAgree` | src/bpfilter/bpf/parse_ipv6_nh.bpf.c:32-85 | both walkers return the same protocol if and only if every read succeeded or the walk stopped before a hop-by-hop header; the offset is at most l3 + 40 + 6 * 2048 |
| `Ipv6Walk.WalkersDiffer` | src/bpfilter/bpf/parse_ipv6_eh.bpf.c:17-53 | a truncated packet on which one walker returns TCP and the other 0 |
| `Ipv6Walk.WalkFollowsRfc` | src/bpfilter/bpf/parse_ipv6_nh.bpf.c:32-85 | the walk visits the headers where section 4 of RFC 8200 has them if and only if every fragment header it crosses has its reserved byte clear, and then finds the same protocol |
| `Ipv6Walk.ReservedByteMisleads` | src/bpfilter/bpf/parse_ipv6_eh.bpf.c:17-53 | a fragment header with reserved byte 8 moves the segment eight bytes too far |
| `Routing.RoutingAsDocumented` | src/bpfilter/cgen/stub.c:254-302 | what rules can see of an IPv6 packet is what the comment on the mask promises if and only if the first header is not routing, fragment or authentication, or it cannot be read, or the walk would find nothing new |
| `Routing.FragmentedTcpIsMissed` | src/bpfilter/cgen/stub.c:36-36 | a concrete family: a fragmented TCP segment is classified as having no transport protocol |
| `Bpf.RunConcat` | src/bpfilter/cgen/program.c:695-710 | running appended code is running the pieces one after the other |
| `Asm.SkipIfMeaning` | src/bpfilter/cgen/jmp.c:18-29 | code in a scope-bound jump context runs exactly when its jump is not taken, and control goes on behind it |
| `Asm.CountAndExitMeaning` | src/bpfilter/cgen/stub.c:65-79 | the exit code counts the packet under its key and leaves with the verdict |
| `Switch.SwitchMeaning` | src/bpfilter/cgen/swich.c:169-209 | a lowered switch runs exactly the body of the first selected case, duplicates allowed, or the default, and goes on behind the block |
| `Switch.SwitchWithoutDefault` | src/bpfilter/cgen/swich.c:169-209 | without a default a value that selects no case runs the first case |
| `Chain.UpdateFeatures` | src/libbpfilter/chain.c:22-42 | the flags gain exactly the features the rule needs |
| `Chain.NewChain` | src/libbpfilter/chain.c:44-80 | every rule gets its position as index, the flags are the union of the rules' features, nothing else changes |
| `Chain.AddRule` | src/libbpfilter/chain.c:203-211 | the new rule is last with the next index and the chain stays consistent |
| `Prefix.PrefixToMask` | src/bpfilter/cgen/matcher/ip4.c:66-75 | the byte array holds exactly the first prefixlen bits set |
| `Prefix.MaskedWordsCompareThePrefix` | src/bpfilter/cgen/matcher/ip4.c:77-107 | masked words are equal if and only if the addresses share their first prefixlen bits |
| `Promise.TrackedWalk` | src/bpfilter/bpf/parse_ipv6_nh.bpf.c:32-85 | with at most six headers, all readable, fragment headers with a clear reserved byte and no header taken for one behind a later fragment's, the walk finds the chain of RFC 8200: its headers, its transport protocol and where it starts |
| `Promise.ParsedIsClassified` | src/bpfilter/cgen/stub.c:153-375 | how the program's view of every packet that is let through comes from what is on the wire, by RFC 8200 for IPv6: which protocols and extension headers are seen, which read as 0, and which packets the walker strays on; on cgroups if and only if the socket's family is the packet's |
| `Promise.ParsedFields` | src/bpfilter/cgen/cgroup.c:30-92 | the program finds the network header behind the link layer header, or first on cgroups, takes the interface from its field, and counts the size of the whole frame |
| `Promise.UnreadableExactly` | src/bpfilter/cgen/stub.c:47-375 | unless the walker strays, the prologue gives up on exactly the packets of which the kernel does not show the link layer header, or the header of a supported network or transport protocol |
| `Promise.MappedAddressIsMisread` | src/bpfilter/cgen/cgroup.c:56-82 | an IPv4 packet on an IPv6 socket is taken for IPv6 and matches no IPv4 protocol |
| `Promise.HoldsAsPromised` | src/bpfilter/cgen/matcher/meta.c:28-167 | for every matcher and operator the generated test is the documented meaning, read off the packet, if and only if nothing is cut off, skipped, strayed from or unsupported, or the payload does not ask for it |
| `Promise.PacketAsPromised` | src/bpfilter/cgen/program.c:495-566 | on a packet all matchers that ask for something in it keep their promise, with every operator and payload, if and only if the program sees exactly the protocols, headers, ports and ICMP bytes that are there |
| `Promise.CleanIsSeen` | src/bpfilter/cgen/stub.c:153-375 | unless the walker strays, it sees them if and only if the protocols are supported and found, both ports are set, no later fragment is read as a header and no recorded header is skipped |
| `Promise.OtherOperators` | src/bpfilter/cgen/matcher/ip4.c:26-46 | interface and network protocol are tested for equality whatever the operator; every other test takes an operator without meaning for `not` |
| `Promise.OperandsCutOff` | src/bpfilter/cgen/matcher/meta.c:28-38 | interface 65537 passes a filter on interface 1, mark 0x80000000 does not match itself |
| `Promise.GreIsMisread` | src/bpfilter/cgen/stub.c:316-332 | a GRE packet fails `eq 47`, passes `not 47` and passes `eq 0` |
| `Promise.ArpIsMisread` | src/bpfilter/cgen/stub.c:161-177 | an ARP packet fails the filter on its ethertype |
| `Promise.PortZeroIsMisread` | src/bpfilter/cgen/matcher/meta.c:109-110 | a TCP segment from port 0 fails the filter on port 0 |
| `Promise.ReservedByteHidesPort` | src/bpfilter/bpf/parse_ipv6_eh.bpf.c:17-53 | hop-by-hop options, a fragment header with reserved byte 8, TCP from port 80: the filter on port 80 misses it |
| `Promise.SeventhHeaderHides` | src/bpfilter/bpf/parse_ipv6_eh.bpf.c:17-53 | behind seven destination option headers TCP is not found |
| `Promise.LaterFragmentIsMisread` | src/bpfilter/cgen/matcher/meta.c:78-139 | a later IPv4 fragment passes the filter on a port it does not have |
| `Promise.RuleAsPromised` | src/bpfilter/cgen/program.c:495-566 | a rule none of whose matchers is affected matches exactly the packets its matchers promise |
| `Matchers.MatcherMeaning` | src/bpfilter/cgen/matcher/meta.c:28-203 | the code of every modelled matcher goes on exactly when the matcher holds, else leaves for the next rule, and changes neither protocols nor headers nor counters |
| `Matchers.NetMeaning` | src/bpfilter/cgen/matcher/ip4.c:77-107 | ip4.snet and ip4.dnet accept exactly the addresses sharing the prefix |
| `Matchers.AddrMeaning` | src/bpfilter/cgen/matcher/ip4.c:26-46 | ip4.saddr and ip4.daddr accept exactly that address, or exactly all others |
| `Matchers.PortMeaning` | src/bpfilter/cgen/matcher/meta.c:78-139 | port matchers load the port of the right transport header and never follow an unset header pointer |
| `Matchers.IcmpMeaning` | src/bpfilter/cgen/matcher/icmp.c:18-94 | type and code matchers look at the right byte, only in ICMP respectively ICMPv6 packets |
| `Matchers.NexthdrMeaning` | src/bpfilter/cgen/matcher/ip6.c:251-294 | ip6.nexthdr tests the recorded header bit, or the transport protocol |
| `Prologue.MaskLiteral` | src/bpfilter/cgen/stub.c:36-36 | which bits the literal really has |
| `Prologue.RouteMeaning` | src/bpfilter/cgen/stub.c:248-276 | the hand-counted jumps send exactly the headers of the literal, 135, 139 and 140 to the walker |
| `Prologue.V6Meaning` | src/bpfilter/cgen/stub.c:236-302 | the IPv6 block leaves protocol and transport offset where the reference parser finds them |
| `Prologue.L3Meaning` | src/bpfilter/cgen/stub.c:153-304 | the network layer block classifies the packet, or leaves through the error exit exactly when the header cannot be read |
| `Prologue.L4Meaning` | src/bpfilter/cgen/stub.c:308-375 | the transport layer block does the same for the transport header |
| `Prologue.HeadMeaning` | src/bpfilter/cgen/xdp.c:29-67 | packet size, interface and network protocol for XDP, TC and cgroup programs |
| `Prologue.FamilyMeaning` | src/bpfilter/cgen/cgroup.c:30-96 | a cgroup program derives the network protocol from the socket family |
| `Prologue.PrologueMeaning` | src/bpfilter/cgen/program.c:796-827 | for every packet, at the first rule registers and context agree with the reference parser: a known protocol implies a set header pointer; unreadable packets are accepted and counted as errors |
| `Compiler.ReturnCode` | src/bpfilter/cgen/xdp.c:76-88 | at every hook the value returned for accept makes the kernel pass the packet, the one for drop makes it drop it |
| `Compiler.ResolveMeaning` | src/bpfilter/cgen/program.c:410-493 | resolving the jumps to the next rule makes them leave at the end of the rule |
| `Compiler.RuleMeaning` | src/bpfilter/cgen/program.c:495-624 | a rule's code marks, logs, counts and decides exactly when all its matchers hold |
| `Compiler.RulesMeaning` | src/bpfilter/cgen/program.c:828-848 | rules run in order up to the first matching terminal one, else the policy decides |
| `Compiler.ChainMeaning` | src/bpfilter/cgen/program.c:796-848 | the relocatable code of a chain decides every packet as the reference semantics does, with the same counters, mark and log |
| `Image.LinkedRun` | src/bpfilter/cgen/program.c:1008-1029 | a finished image runs as its relocatable code, one step per instruction at most |
| `Rounding.RoundingIsExact` | src/bpfilter/cgen/program.c:68-78 | up to 2^32 the result is the least power of two not below the value |
| `Rounding.RoundingIsExactIff` | src/bpfilter/cgen/program.c:68-78 | for values of any size the result is the least power of two not below v if and only if v - 1 has no 32 consecutive zero bits below its highest bit |
| `Rounding.RoundingAbove32Bits` | src/libbpfilter/dynbuf.c:11-21 | 2^32 + 1 is rounded to no power of two, 2^32 + 2 is rounded right |
| `Rounding.RoundingGrows` | src/libbpfilter/dynbuf.c:11-21 | whatever the value, the result is not below it |
| `Program.Program.Emit` | src/bpfilter/cgen/program.c:695-794 | the image grows by one instruction, and the fixup list by one entry exactly when a field is still to be written |
| `Program.Program.JmpCleanup` | src/bpfilter/cgen/jmp.c:18-29 | the recorded jump leads to the next instruction to be emitted, in 16 bits |
| `Program.Program.ApplyFixups` | src/bpfilter/cgen/program.c:431-493 | every fixup of a type is applied once to a field still zero and dropped, others stay; it fails exactly when a target is out of reach |
| `Program.TracksApply` | src/bpfilter/cgen/program.c:431-493 | after a fixup is applied, pending fields and fixups still correspond one to one |
| `SwitchGen.GenerateSwitch` | src/bpfilter/cgen/swich.c:169-209 | for options and bodies of any length the three passes emit the switch layout with offsets cut to 16 bits |
| `SwitchGen.LoweredIsSwitch` | src/bpfilter/cgen/jmp.c:18-29 | what is emitted is the switch if and only if every offset fits 16 bits |
| `Generator.GenV6` | src/bpfilter/cgen/stub.c:236-302 | the nested jump contexts of the IPv6 block close to the hand-counted layout |
| `Generator.GenPrologue` | src/bpfilter/cgen/program.c:796-827 | the emitted prologue is the modelled one for every hook |
| `Generator.GenMatcher` | src/bpfilter/cgen/matcher/meta.c:141-203 | the emitted matcher code is the modelled one; it is emitted exactly for operators with code, and for a mark on XDP a missing operation is called whatever the operator |
| `Generator.GenRule` | src/bpfilter/cgen/program.c:495-624 | the emitted and resolved rule is the modelled one, exactly when every operator has code, every mark can be read and the hook can set the rule's mark; a missing operation is called exactly when the first matcher without code is a mark on XDP |
| `Printer.Printer.AddMsg` | src/bpfilter/cgen/printer.c:294-333 | an identical message is reused, any other appended at the end; messages stay distinct and contiguous |
| `Printer.Printer.Assemble` | src/bpfilter/cgen/printer.c:335-372 | the buffer is all messages with their nul bytes, without gap or overlap |
| `Printer.MessageAtOffset` | src/bpfilter/cgen/printer.c:335-372 | every message sits at its recorded offset |
| `Printer.OffsetsStay` | src/bpfilter/cgen/printer.c:294-333 | over any run of additions an offset keeps denoting its message |
| `Stubs.AppendStub` | src/bpfilter/cgen/program.c:640-686 | a stub's instructions are appended; each string load is rewritten to the printer map with the printer's offset of that very string |
| `Stubs.GenElfstubs` | src/bpfilter/cgen/program.c:626-693 | every called stub is appended exactly once and none other, although the walked list grows meanwhile, and all load their strings from the printer; it fails exactly when a called stub is missing |
| `Build.GenChain` | src/bpfilter/cgen/program.c:796-848 | the emitted program is the modelled code of the chain |
| `Build.LoadMaps` | src/bpfilter/cgen/program.c:861-938 | after the load passes no fixup is left and the image is the linked code |
| `Build.ContainsImplements` | src/bpfilter/cgen/program.c:796-859 | any image starting with the linked code of a chain implements the chain |
| `Build.BuildProgram` | src/bpfilter/cgen/program.c:796-859 | from a chain to a loaded image that decides every packet as the chain does, so that the kernel passes exactly what it accepts, all fixups applied; every called stub lies once in the image, instruction by instruction, loading its strings at the printer's offsets; it succeeds if and only if every operator has code, every called stub is there and none is out of reach of a call, which takes an image of INT_MAX instructions |
| `Build.FarCallIff` | src/bpfilter/cgen/program.c:431-493 | resolving the calls fails exactly when a stub lies INT_MAX instructions behind one of its calls |
| `Build.CallsReachStubs` | src/bpfilter/cgen/program.c:431-493 | every call of the linked program leads to the first instruction of its stub |
| `Build.ImplementsEnforces` | src/bpfilter/cgen/program.c:796-859 | run on any packet, the image of a chain makes the kernel pass it if and only if the chain accepts it, and drop it if and only if the chain drops it |
| `Evaluation.EvaluatesOnce` | src/bpfilter/cgen/program.c:828-848 | the marks the rules see, and where evaluation stops, are determined by packet and rules |
| `Evaluation.DecideByPosition` | src/bpfilter/cgen/program.c:828-848 | the verdict is that of the first rule that matches and accepts or drops, else the policy; the mark left and the log entries are those of the rules that were reached and matched |
| `Evaluation.HitsByPosition` | src/bpfilter/cgen/program.c:594-608 | a rule's counter is hit if and only if the rule is reached, matches and counts, the policy's if and only if no rule stops |
| `Evaluation.FilterByPosition` | src/bpfilter/cgen/program.c:796-848 | both for whole chains and every packet whose headers can be read, which never hits the error counter |
| `Evaluation.UnreadableIsAccepted` | src/bpfilter/cgen/stub.c:65-79 | a packet whose headers cannot be read is accepted and only the error counter is hit |
| `Counters.HitsAscend` | src/bpfilter/cgen/program.c:594-608 | a packet hits every counter key at most once, in rule order, then the policy |
| `Counters.PacketHitsAscend` | src/bpfilter/cgen/program.c:895-918 | every key used is below the number of rules plus two |
| `Counters.DecideBumps` | src/bpfilter/cgen/program.c:837-848 | deciding a packet bumps exactly the keys of the counting rules it matched and of the policy it fell to |
| `Counters.Accounting` | src/bpfilter/bpf/update_counters.bpf.c:21-35 | after any packet sequence each counter has grown by the packets that hit it and by their bytes, modulo 2^64 |
| `Counters.HitsConserve` | src/bpfilter/cgen/program.c:594-608 | when all rules are terminal and count, every packet hits exactly one key |
| `Counters.Conservation` | src/bpfilter/cgen/program.c:594-608 | when all rules are terminal and count, counters that start at zero add up to the number of packets filtered |
| `Counters.RunAllIsFilterAll` | src/bpfilter/cgen/program.c:796-859 | running the image on a packet sequence leaves the counters the reference semantics leaves |
| `Counters.ImageAccounting` | src/bpfilter/bpf/update_counters.bpf.c:21-35 | the accounting law for the running image |
| `Counters.ImageConservation` | src/bpfilter/cgen/program.c:837-848 | the conservation law for the running image |
| `Counters.GetCounter` | src/bpfilter/cgen/cgen.c:195-214 | rule, policy and error counters are read from the keys the program writes; any other index is refused |
| `Counters.GetCounters` | src/bpfilter/cgen/cgen.c:430-468 | all counters, in key order |
| `Jumps.SoundSwitch` | src/bpfilter/cgen/swich.c:169-209 | every jump of a lowered switch leads forward to an instruction of the block or its end |
| `Jumps.ChainJumps` | src/bpfilter/cgen/jmp.c:18-29 | every jump in a chain's code leads forward, inside the code, and not onto a second slot |
| `Jumps.ImageJumps` | src/bpfilter/cgen/program.c:410-493 | the same in the linked image |
| `Payload.StxPayload` | src/bpfilter/cgen/stub.c:423-458 | for every size and offset the emitted loads and stores are aligned, follow each other without gap or overlap, and leave in memory what a plain copy leaves |
| `Payload.TilesCopyOnce` | src/bpfilter/cgen/stub.c:423-458 | every byte of the field is copied by exactly one pair |
| `Payload.CopiedBytes` | src/bpfilter/cgen/stub.c:423-458 | the destination holds the field, every other byte is unchanged |
| `Payload.StaysInStep` | src/bpfilter/cgen/stub.c:434-456 | testing the starting offset is enough for every later store |
| `Msgpack.RoundTrip` | src/external/mpack.c:1598-2148 | what was encoded anywhere in a byte string is decoded from there, and decoding ends right behind it |
| `Msgpack.RoundTripInt` | src/external/mpack.c:1988-2030 | every 64-bit signed integer comes back, unsigned when it is not negative |
| `Msgpack.MessageRoundTrip` | src/external/mpack.c:5278-5653 | the whole-message form, for every tree of nil, bool, integers, floats, strings, binaries, arrays and maps |
| `Formats.SignedIsTwosComplement` | src/external/mpack.c:5509-5545 | a signed number has the residue of its bytes modulo 2^(8 * width) and lies in the signed range of the width |
| `Formats.DecodesExactlyTheFormats` | src/external/mpack.c:5278-5653 | a byte string is decoded as a value if and only if it is one of the value's encodings in the MessagePack specification |
| `Formats.EncodeIsShortest` | src/external/mpack.c:1911-2148 | what is written for a value is its only shortest encoding: every other one is longer |
| `TreeParser.HeadDecodes` | src/external/mpack.c:5278-5653 | parsing one node is one step of the recursive decoder |
| `TreeParser.CompleteNeeds` | src/external/mpack.c:5083-5110 | every node still to come needs a byte, so a node the budget cannot pay for cannot be decoded |
| `TreeParser.CompleteOpens` | src/external/mpack.c:5120-5262 | opening a container on the stack is decoding it at once |
| `TreeParser.RejectedEarly` | src/external/mpack.c:5083-5110 | an early rejection by the budget is a rejection by the decoder |
| `TreeParser.StepLinked` | src/external/mpack.c:5692-5725 | parsing a node keeps stack and arena describing the unfinished containers |
| `TreeParser.CloseLinked` | src/external/mpack.c:5717-5724 | popping a full level finishes its container in the arena |
| `TreeParser.Parser.ReserveBytes` | src/external/mpack.c:5083-5110 | claims succeed exactly while unclaimed bytes last |
| `TreeParser.Parser.ParseChildren` | src/external/mpack.c:5169-5262 | children get one contiguous block and become the next nodes to parse |
| `TreeParser.Parser.ParseNodeContents` | src/external/mpack.c:5278-5653 | a node is filled exactly when it is well formed and payable |
| `TreeParser.Parser.ParseNode` | src/external/mpack.c:5655-5685 | the position moves behind the node, its children stay claimed; behind a map of 2^31 pairs or more it is 2^32 bytes too far |
| `TreeParser.Parser.ContinueParsing` | src/external/mpack.c:5692-5725 | the loop ends with the recursive decoder's tree, or rejects what it rejects, or goes astray exactly when it meets a huge map the data can pay for |
| `TreeParser.ParseTree` | src/external/mpack.c:5748-5866 | data of less than 2^32 bytes: accepted if and only if the decoder accepts, the arena then represents the decoded tree, and no read is outside the data; larger data: it goes astray if and only if it meets a huge map it can pay for, and then looks for the next node 2^32 bytes behind that map's header; otherwise the same |
| `TreeParser.RepresentsOne` | src/external/mpack.c:5692-5725 | a node of the arena is the root of one tree only |
| `TreeParser.SmallDataIsSafe` | src/external/mpack.c:5169-5190 | data of less than 2^32 bytes cannot pay for a map that wraps |
| `TreeParser.HugeMapIsMisread` | src/external/mpack.c:5674-5680 | a map of 2^31 pairs of nil, which the decoder accepts, makes the parser look for the first key behind the data |
| `PagedLayout.LaidBytes` | src/external/mpack.c:2466-2488 | bytes written across pages continue the body of the last record |
| `PagedLayout.LaidRecord` | src/external/mpack.c:2540-2563 | a new record lands where the reader will look for it |
| `PagedLayout.LaidOrder` | src/external/mpack.c:2540-2563 | no two records share a position |
| `PagedLayout.ReadersFindRecords` | src/external/mpack.c:2580-2588 | readers look for the next record where the builder puts it, for every layout of pages, if and only if no record fits into a tail shorter than the least buffer |
| `PagedLayout.LargeRecordsAreFound` | src/external/mpack.c:2385-2388 | with records of at least the least buffer, as on 64-bit hosts, checked sizes are usable |
| `Writer.Sink.FlushTo` | src/libbpfilter/pack.c:23-44 | flushed bytes are appended and the block grows by doubling |
| `Writer.Sink.WriteNative` | src/external/mpack.c:1411-1483 | bytes come out in order however they fall across the buffer's edge |
| `Builder.Builder.WriteNative` | src/external/mpack.c:1411-1447 | inside a build, bytes go over as many pages as they take, and only bytes are added |
| `Builder.Builder.TrackElement` | src/external/mpack.c:1021-1050 | the open container gains one element; a pair counts with its value |
| `Builder.Builder.Build` | src/external/mpack.c:2524-2589 | a new record at a position of its own, child of the open container |
| `Builder.Builder.CopyBytes` | src/external/mpack.c:2664-2689 | for all pages, however they were filled, the walk's inner loop writes the bytes that follow a position page after page and ends behind them |
| `Builder.Builder.Resolve` | src/external/mpack.c:2592-2724 | for all page sizes and pages, wherever the records lie, the walk writes what is read out of the pages record by record |
| `Builder.ReadOutRenders` | src/external/mpack.c:2592-2724 | out of pages the builder filled, with usable sizes, every record's tag with its final count and every body are read, in order, up to exactly the end |
| `Builder.Builder.Complete` | src/external/mpack.c:2726-2763 | completing refuses a key without value, returns to the parent, or resolves the outermost container |
| `Builder.Builder.WriteLeaf` | src/external/mpack.c:2202-2262 | a scalar, string or binary is written in its canonical form |
| `Builder.Builder.WriteValue` | src/external/mpack.c:2407-2763 | whatever is nested inside, a value adds one element and exactly its encoding |
| `Builder.SmallRecordsAreLost` | src/external/mpack.c:2692-2710 | with 24-byte records, building [s, [], []] leads the builder to pages out of which the reader reads a message without the last array |
| `Pack.PackMessage` | src/libbpfilter/pack.c:46-117 | for every container and all usable page sizes the packed bytes are its canonical encoding, the only shortest one |
| `Pack.SendAndReceive` | src/libbpfilter/pack.c:223-251 | what one side packs the other side's parser turns into the same tree, always below 2^32 bytes, and above if and only if it meets no huge map |
| `Pack.IntRoundTrip` | src/libbpfilter/pack.c:345-364 | every int comes back although non-negative ones are stored unsigned, and a 64-bit integer that does not fit an int is refused |
| `Pack.UIntRoundTrip` | src/libbpfilter/pack.c:379-399 | an unsigned integer comes back if it fits the width asked for, and is refused otherwise |
| `Pack.AccessorsTake` | src/libbpfilter/pack.c:345-626 | each accessor takes exactly the values of its type and range; an int may be stored unsigned, a string must not hold a zero byte |
| `Pack.FindMeans` | src/external/mpack.c:6698-6730 | a lookup gives the value of the only occurrence of a key, and tells no occurrence from two |
| `Pack.FindNode` | src/external/mpack.c:6698-6730 | the key lookup over the arena finds the value, absence or duplication that the map has |
| `Serial.MatcherStores` | src/libbpfilter/matcher.c:1213-1224 | which part of a matcher a message holds under which name |
| `Serial.RuleStores` | src/libbpfilter/rule.c:131-145 | the same for rules |
| `Serial.SetStores` | src/libbpfilter/set.c:342-363 | the same for sets |
| `Serial.ChainStores` | src/libbpfilter/chain.c:152-165 | the same for chains |
| `Serial.MatcherBack` | src/libbpfilter/matcher.c:1170-1224 | a packed matcher comes back if and only if it has a payload, and is refused otherwise |
| `Serial.EmptyPayloadIsRefused` | src/libbpfilter/matcher.c:1113-1122 | a matcher without payload does not come back |
| `Serial.RuleBack` | src/libbpfilter/rule.c:67-145 | a packed rule comes back if and only if all its matchers have a payload |
| `Serial.MakeSet` | src/libbpfilter/set.c:25-86 | a set is made if and only if its key has 1 to 8 components, all of them supported, and joins no network with another component; it uses a trie if and only if its only component is a network |
| `Serial.SizesAdd` | src/libbpfilter/set.c:60-82 | the element size of a key is the sum of the sizes of its parts, of one component its own |
| `Serial.SetBack` | src/libbpfilter/set.c:262-363 | a packed set comes back, element size and trie choice computed again |
| `Serial.ChainBack` | src/libbpfilter/chain.c:82-165 | a packed chain comes back, indices and flags computed again, if and only if all its matchers have a payload |
| `Serial.ChainOverTheWire` | src/libbpfilter/chain.c:82-165 | the same over the bytes of a message |
| `Serial.NewChainIsValid` | src/libbpfilter/chain.c:44-80 | construction gives a chain in the form that comes back |
| `Serial.AddRuleKeepsValid` | src/libbpfilter/chain.c:203-211 | chains grown rule by rule stay in the form that comes back |
| `Serial.BuiltChainsComeBack` | src/libbpfilter/chain.c:44-165 | every chain made by construction and any number of added rules comes back from the bytes of its message if and only if all its matchers have a payload |
| `Serial.NewChainAgrees` | src/libbpfilter/chain.c:44-80 | construction means the same to the compiler's chains and to their stored form |
| `Serial.AddRuleAgrees` | src/libbpfilter/chain.c:203-211 | adding a rule means the same to both |
| `Serial.CompiledChainsComeBack` | src/libbpfilter/chain.c:82-165 | every chain the compiler works on comes back from its message if and only if all its matchers have a payload; the numbers in what comes back stand for the very same chain |
| `Serial.StoredIsRestored` | src/libbpfilter/chain.c:152-165 | the stored form of a compiler chain determines it: kind, operator, payload, verdict, mark, log and counter of every rule, hook, policy, flags and name |
| `Serial.UnpackedRule` | src/libbpfilter/rule.c:67-116 | an accepted rule's numbers are in the range of their C types and its matchers have payloads |
| `Serial.UnpackedIsConsistent` | src/libbpfilter/chain.c:82-137 | whatever message is accepted, indices, flags and sets of the result are right |
| `Delivery.RequestLayout` | src/libbpfilter/request.c:34-76 | front and command are first, the length of the data is in front of the data |
| `Delivery.RequestTaken` | src/libbpfilter/request.c:84-102 | received bytes are taken for a request if and only if they are as long as they say |
| `Delivery.SetMessageStores` | src/libbpfilter/cli.c:200-214 | chain and hook options are held under their names |
| `Delivery.RequestBack` | src/libbpfilter/request.c:58-102 | a request is taken out of its bytes as it was put in |
| `Delivery.ReadNode` | src/libbpfilter/pack.c:223-251 | reading the arena from a node gives the tree it represents |
| `Delivery.SetChain` | src/libbpfilter/cli.c:189-226 | through builder, request, socket, parser and key lookup: the chain the daemon rebuilds is the chain that was sent, with its hook options, if and only if all its matchers have a payload; nothing that follows on the socket is touched; always below 2^32 bytes, and above if and only if the parser meets no huge map |
| `LinkedList.List.AddHead` | src/libbpfilter/list.c:151-174 | the element is first; links, ends and length describe the sequence |
| `LinkedList.List.AddTail` | src/libbpfilter/list.c:176-199 | the element is last; links, ends and length describe the sequence |
| `LinkedList.List.Delete` | src/libbpfilter/list.c:201-219 | exactly that node leaves the sequence |
| `LinkedList.List.DeleteWhere` | src/bpfilter/ctx.c:405-418 | an iteration that deletes the visited node sees every original element once, in order, and keeps exactly the others |
| `Registry.StepKeeps` | src/bpfilter/xlate/cli.c:121-545 | every request with every outcome keeps names distinct and every program with the chain it was generated from |
| `Registry.RunKeeps` | src/bpfilter/xlate/cli.c:121-545 | so does every run of requests |
| `Registry.OtherChainsUntouched` | src/bpfilter/xlate/cli.c:191-545 | a request about one chain leaves all others and their order unchanged |
| `Registry.UpdateIsAtomic` | src/bpfilter/cgen/cgen.c:347-405 | an update changes chain and program together, in place and still attached, or nothing |
| `Registry.ChainFlushRemoves` | src/bpfilter/xlate/cli.c:518-545 | flushing a chain succeeds if and only if there is one of that name; then that one is gone and all others stay |
| `Registry.RulesetFlushRemoves` | src/bpfilter/xlate/cli.c:52-61 | exactly the chains of the command line front are gone |
| `Registry.ChainLoadAppends` | src/bpfilter/xlate/cli.c:380-428 | when loading succeeds; the chain is then last, detached and was not there before, else nothing changes |
| `Registry.ChainAttachHooks` | src/bpfilter/xlate/cli.c:430-475 | when attaching succeeds; that chain was detached and now has the given options, nothing else changes, and no chain changes on failure; where the daemon's namespaces end up |
| `Registry.ChainSetReplaces` | src/bpfilter/xlate/cli.c:191-259 | when setting succeeds; the new chain is last, attached as asked for, and all of its name are gone |
| `Registry.ChainUpdateSucceeds` | src/bpfilter/xlate/cli.c:477-516 | an update succeeds if and only if the chain is there and attached and every foreign call succeeds |
| `Registry.RulesetSetIsAllOrNone` | src/bpfilter/xlate/cli.c:121-189 | other fronts are untouched; the CLI chains are the new ones in order if and only if all are readable, valid, loadable and of distinct unused names, else there are none |
| `Registry.ChainSetAcrossFronts` | src/bpfilter/xlate/cli.c:191-259 | other fronts' chains are untouched if and only if none has the name or the request is refused early |
| `Registry.ChainSetLosesTheOld` | src/bpfilter/xlate/cli.c:233-250 | an existing chain is lost exactly when the new one is valid but cannot be set |
| `Registry.BackHome` | src/bpfilter/cgen/cgen.c:216-263 | the daemon ends in its own namespaces unless switching or attaching failed half-way |
| `Daemon.Daemon.GetCgen` | src/bpfilter/ctx.c:276-289 | the index of the first codegen of that name |
| `Daemon.Daemon.SetCgen` | src/bpfilter/ctx.c:322-330 | appends unless the name is taken |
| `Daemon.Daemon.DeleteCgen` | src/bpfilter/ctx.c:332-350 | exactly the codegens of that name are gone |
| `Daemon.Daemon.Flush` | src/bpfilter/ctx.c:405-418 | exactly the codegens of that front are gone, order kept |
| `Daemon.FlushList` | src/bpfilter/ctx.c:405-418 | the same flush on the linked list, deleting nodes while iterating |
| `Daemon.Daemon.SetProgram` | src/bpfilter/cgen/cgen.c:216-263 | succeeds exactly when every foreign call does; tells where the namespaces end up |
| `Daemon.Daemon.RulesetSet` | src/bpfilter/xlate/cli.c:121-189 | the handler takes exactly the step of the state machine |
| `Daemon.Daemon.ChainSet` | src/bpfilter/xlate/cli.c:191-259 | the handler takes exactly the step of the state machine |
| `Daemon.Daemon.ChainLoad` | src/bpfilter/xlate/cli.c:380-428 | the handler takes exactly the step of the state machine |
| `Daemon.Daemon.ChainAttach` | src/bpfilter/xlate/cli.c:430-475 | the handler takes exactly the step of the state machine, undoing the attachment when pinning fails |
| `Daemon.Daemon.ChainUpdate` | src/bpfilter/xlate/cli.c:477-516 | the handler takes exactly the step of the state machine |
| `Daemon.Daemon.ChainFlush` | src/bpfilter/xlate/cli.c:518-545 | the handler takes exactly the step of the state machine |
| `Daemon.Daemon.Handle` | src/bpfilter/xlate/cli.c:547-608 | every request takes the registry one step and keeps its invariant |
| `Daemon.Serve` | src/bpfilter/xlate/cli.c:547-608 | serving a whole run of requests ends in the state the steps describe |
| `Framing.DynBuf.Grow` | src/libbpfilter/dynbuf.c:32-50 | the capacity becomes a power of two that holds what is asked for, up to 2^32 |
| `Framing.DynBuf.Write` | src/libbpfilter/dynbuf.c:52-70 | bytes are appended, the capacity accounts for used and free bytes |
| `Framing.HeadersCountDown` | src/libbpfilter/io.c:72-116 | every header counts exactly the bytes behind its message and is 0 only in the last one |
| `Framing.CutAt` | src/libbpfilter/io.c:72-116 | message i carries bytes 1024 i to 1024 (i + 1) or the rest, and there are just enough messages |
| `Framing.Send` | src/libbpfilter/io.c:72-116 | the loop sends exactly the messages the buffer is cut into |
| `Framing.Receive` | src/libbpfilter/io.c:28-70 | the loop takes messages until one says nothing follows and appends their payloads |
| `Framing.ReceivedToFirstZero` | src/libbpfilter/io.c:28-70 | a transfer ends with the first message that says nothing follows |
| `Framing.CutIsReceived` | src/libbpfilter/io.c:28-116 | whatever follows on the socket, exactly one transfer is taken |
| `Framing.Transfer` | src/libbpfilter/io.c:28-116 | what is received is what was sent; an empty transfer is never received |

## Left out

- Netfilter programs: their prologue, verdicts and mark access (`src/bpfilter/cgen/nf.c`).
- The tcp, udp, set, probability and IPv6 address matchers; they would add members of the kinds already modelled.
- Debug printing that a verbose daemon adds to generated programs.
- Set maps and their fixups; only counters, printer and log maps are linked.
- Stub bodies and kernel functions run as single steps that clobber r0-r5; the extension-header walkers and the counter update are modelled on values, the log stub by its record.
- The stack frame is a map from fields to values, not bytes; a load wider than its field sees arbitrary neighbouring bytes, overlapping stores are not modelled.
- The slice buffer of the network layer is the link layer's, as in the source; what the kernel copies there is not modelled, packet bytes are read from the packet.
- Hosts are little-endian.
- Memory exhaustion, and errors of list and buffer allocation.
- Program.Program.ApplyFixups: next-rule jumps are required to fit 16 bits, which the source asserts.
- MessagePack extension types (compiled out), timestamps, UTF-8 checks, stream readers, and floats beyond their bits.
- Arrays and maps of known size inside a build: the daemon never writes them.
- TreeParser.ParseTree: data is shorter than 2^63 bytes, error codes are one rejection, and what the parser does after it has gone astray is not modelled.
- Rounding.RoundingGrows: values above 2^63, whose rounded value does not fit 64 bits, are not wrapped around.
- Serial.UnpackedIsConsistent: assertions of the constructors are refusals; a build without assertions would accept empty payloads.
- Updating a chain does not validate the new chain, so validity of registered chains is not claimed; whole chains (`Build.GenChain`) are generated from valid ones, single rules from any.
- The node pages of the tree parser: the arena is one sequence, its paging heuristic only affects addresses.
- Builder.Builder.CopyBytes: pages are not freed while they are walked.
- Sizes of set key components are a parameter, the matcher table itself is not modelled.
- Delivery.SetChain: hook options are any value, the response is not modelled, and the layout of a request is that of a 64-bit host.
- Saving and loading the whole context, the program's own serialised form, and hook options beyond an identifier.
- Registry.StepKeeps: unloading a program is assumed to leave the registry alone; leaks in the kernel are not modelled.
- Framing.Receive: every message arrives whole; partial sends and receives are errors in the source.
- Parsing of command line input, dumping, logging, namespaces and pinning themselves.
