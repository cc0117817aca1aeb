# PRP/HSR RedBox: a verified model

A RedBox joins devices with one Ethernet port to a redundant network (IEC 62439-3).
In a PRP network it sends every frame over two independent LANs with a
redundancy control trailer (RCT); in an HSR ring it sends every frame both ways round
with an HSR tag. Receivers discard the second copy by its (source, sequence number)
key. This project models that protocol as the repository implements it, together with
the byte codecs and the duplicate table underneath it, and proves what it guarantees:
who receives a frame, exactly how often, with which bytes, and how much traffic it
causes, under every interleaving, over ring links and LANs that fail, lose, reorder and
duplicate.

How the files build on each other:

| file | content |
|---|---|
| `Bytes.dfy` | octets, 16-bit words, packed fields |
| `Engine.dfy`, `Buffers.dfy` | RCT trailer and HSR tag: specification with its inverses, and the buffer-filling encoders |
| `Supervision.dfy`, `Wire.dfy` | supervision frames, and all wire formats octet by octet |
| `MulticastPattern.dfy` | the two multicast-pattern parsers and the filter |
| `NodeTable.dfy` | the duplicate table and its refinement of an unbounded history |
| `Role.dfy`, `NodeSpec.dfy`, `Node.dfy` | one node: configuration, step function, and the class that computes it |
| `NodeRun.dfy`, `Window.dfy`, `Conservation.dfy` | all runs of one node: acceptance, table sizing, frame conservation |
| `Lanes.dfy`, `Housekeeping.dfy`, `Accounting.dfy` | what a step writes in octets, the tables of known nodes over runs, verdicts, counters and drop reasons over runs |
| `Numbering.dfy`, `Announcing.dfy` | sequence numbers over runs, restart detection, a node's own announcements |
| `Flood.dfy` | duplicate-suppressed flooding over an arbitrary graph |
| `KeyFlow.dfy`, `Network.dfy`, `RingFlood.dfy` | what a step sends, networks of nodes, and the refinement of flooding |
| `Ring.dfy`, `Delivery.dfy`, `Crossing.dfy`, `SanPolicy.dfy`, `Membership.dfy` | theorems about HSR networks |
| `Redundancy.dfy`, `Coupling.dfy` | PRP end to end, and HSR ring to PRP network end to end |
| `Ber.dfy`, `Apdu.dfy`, `Goose.dfy`, `Sv.dfy`, `Utc.dfy` | the IEC 61850 codecs |
| `LogBuffer.dfy` | the bounded log buffer |

A node is a class whose fields are the source's tables and counters. Each handler is
a method proved to make exactly the step that `NodeSpec` specifies as a function of
the old state; runs and networks are sequences of such steps, so the theorems about
them hold of the methods. The clock, the outcome of each port write and the choice
among equally old entries on eviction are parameters of a step. Each handler call is
one atomic step.

Where the code and its documentation disagree, the model follows the code:

- Frames on path 1 are forwarded again (internal/prp/hsr.go:137-157), although the
  file's header comment says they are not.
- Frames injected from a PRP LAN keep their six RCT bytes inside the HSR payload
  (internal/prp/hsr.go:333-346), although docs/prp-standard.md:303 says they are stripped.
- The SAN filter of an hsr-san node is applied to the bare payload
  (internal/prp/hsr.go:220), so with `forward_all = false` the node decides by the first
  six payload octets instead of the destination address.
- A flush is keyed on the supervising node's own address (internal/prp/prp.go:747), not
  on the addresses of the SANs behind it.
- A QuadBox resets the whole path nibble, NetId included (internal/prp/hsr.go:271), so the
  NetId protects one ring only: across QuadBoxes a frame can return to its own PRP
  network (`Crossing.ReinjectionAcrossRings` is a run in which it does).
- Injection skips one VLAN tag and classification skips all of them
  (internal/prp/hsr.go:334-344), so a doubly tagged frame is not restored.

Three promises hold only under a condition, which is proved to be exact: reinjection
safety within a ring for NetIds below 8 (`Delivery.ReinjectionSafety`), because the path
field has four bits; every configuration that loads meets this, since
internal/config/config.go:110-112 and 169-171 admit NetIds 1 to 6 only; transparency for
payloads of at most 4089 bytes with at most one VLAN tag (`Engine.Transparency`); and the SAN policy of hsr-san nodes
(`SanPolicy.PolicyFollowedIff`), which does not even let every broadcast pass
(`SanPolicy.EvenBroadcastIsWithheld` is a family that fails, ARP requests among it,
`SanPolicy.BroadcastPassesIff` the condition).

`dafny verify dfyconfig.toml` checks the whole project.

## Model

| member | source | states |
|---|---|---|
| `Engine.GetEtherType` | internal/engine/engine.go:195-212 | the loop finds the type behind every VLAN tag, zero if the frame ends first |
| `Engine.Padded` | internal/engine/engine.go:110-120 | the frame followed by zeros only, at least 60 bytes |
| `Engine.RctRoundTrip` | internal/engine/engine.go:109-173 | decoding an encoded frame returns LAN, number and padded frame exactly up to 4103 bytes (4107 with a VLAN tag); beyond that it is refused; source and content are kept |
| `Engine.RctReEncode` | internal/engine/engine.go:109-173 | every accepted trailer with nibble 0xA or 0xB on a full-size body is the one the encoder writes |
| `Engine.EtherTypeOfEncodeRct` | internal/engine/engine.go:103-137 | the trailer does not change how a frame is classified |
| `Engine.RewriteLaneDecodes` | internal/engine/hsr.go:118-135 | a lane rewrite never fails on a decodable frame and changes the lane bit only: number, NetId, addresses and the frame inside stay |
| `Engine.RewritePathDecodes` | internal/engine/hsr.go:96-109 | a path rewrite changes the path nibble only |
| `Engine.WirePadding` | internal/engine/hsr.go:61-86 | bytes after the payload are invisible to decoding and stripping |
| `Engine.TaggedDecodes` | internal/engine/hsr.go:45-86 | a tagged frame decodes to the path, number, type and payload it was built from while the payload fits |
| `Engine.HopsPreserve` | internal/engine/hsr.go:118-157 | any number of lane rewrites keeps number, NetId and the frame inside |
| `Engine.Transparency` | internal/prp/hsr.go:333-346 | after injection, any lane rewrites and any padding, stripping returns the injected frame if and only if its payload is at most 4089 bytes and it has at most one VLAN tag |
| `Engine.TaggedEtherType` | internal/engine/hsr.go:161-178 | a frame with a tag is never taken for supervision |
| `Wire.HeaderOctets` | internal/engine/engine.go:78-193 | destination, source, group bit and the two VLAN types, by the octets of the header |
| `Wire.RctOctets` | internal/engine/engine.go:109-137 | every octet of an encoded trailer: number, nibble 0xA or 0xB, 12-bit size, suffix 0x88FB |
| `Wire.RctRecognised` | internal/engine/engine.go:145-173 | a trailer is accepted exactly by its suffix and size octets, and which octets LAN, number and body are read from |
| `Wire.TagOctets` | internal/engine/hsr.go:45-59 | every octet of an inserted HSR tag, behind the header and the VLAN tag if there is one |
| `Wire.TagRecognised` | internal/engine/hsr.go:66-86 | a tag is accepted exactly by its type and size octets, and which octets its fields are read from |
| `Wire.DialectOctets` | internal/supervision/supervision.go:93-171 | every octet in which the two supervision dialects differ |
| `Wire.AnnouncementOctets` | internal/supervision/supervision.go:65-87 | every octet they share |
| `Wire.ReadsAnnouncement` | internal/supervision/supervision.go:106-135 | a frame is an announcement exactly by its group address and type, and which octets its fields are read from |
| `Buffers.PutUint16` | internal/engine/hsr.go:50-52 | overwrites two bytes in place and no others |
| `Buffers.EncodeRctBuffer` | internal/engine/engine.go:109-137 | padding, trailer and concatenation yield the specified frame |
| `Buffers.EncodeHsrBuffer` | internal/engine/hsr.go:45-59 | filling tag and body buffers yields the specified bytes |
| `Buffers.TagOffsetOf` | internal/engine/hsr.go:161-178 | where the tag starts, or that there is none |
| `Buffers.WithLaneIsPack` | internal/engine/hsr.go:127-133 | masking and setting bit 12 keeps the NetId bits and the length |
| `Buffers.RewriteHsrPathLane` | internal/engine/hsr.go:118-135 | patching a copy yields the specified rewrite, failing in the same cases |
| `Buffers.RewriteHsrPath` | internal/engine/hsr.go:96-109 | likewise for the whole path nibble |
| `Supervision.ParseBody` | internal/supervision/supervision.go:65-171 | both supervision dialects, with any trailer, parse back to the node, number and path they were built for |
| `Supervision.BuildRctedIsEncodeRct` | internal/supervision/supervision.go:93-102 | the hand-written trailer equals the general encoder applied to the plain frame, and decodes back to it |
| `MulticastPattern.ValidMulticastPattern` | internal/config/config.go:218-238 | the load-time loop accepts exactly the well-formed patterns |
| `MulticastPattern.ParseMulticastPattern` | internal/prp/prp.go:623-640 | the runtime loop computes the prefix a pattern stands for, empty if it stands for none; which prefix that is, is pinned by the next two rows |
| `MulticastPattern.PatternRoundTrip` | internal/prp/prp.go:619-640 | one to six bytes, written with two digits each in any mixture of cases, with dashes, colons or nothing between them and "0x", "0X" or nothing in front, are read back exactly and pass validation |
| `MulticastPattern.PrefixPrints` | internal/prp/prp.go:623-640 | the bytes read from any accepted pattern print as its digits: no other digits are accepted |
| `MulticastPattern.PatternAgreement` | internal/config/config.go:218-238 | for every string, validation accepts it if and only if the runtime parser yields a prefix of 1 to 6 bytes, and otherwise the prefix is empty |
| `MulticastPattern.MulticastAllowed` | internal/prp/prp.go:588-617 | broadcast passes, and otherwise exactly the destinations starting with the configured prefix |
| `NodeTable.Table.InsertWithExpiry` | internal/nodetable/nodetable.go:48-70 | stores the entry and, if the table overflows, drops an oldest one |
| `NodeTable.Table.Find` | internal/nodetable/nodetable.go:73-85 | true exactly for entries present and not expired |
| `NodeTable.Table.FlushFor` | internal/nodetable/nodetable.go:92-103 | removes exactly the entries of the source and counts them |
| `NodeTable.Table.Cleanup` | internal/nodetable/nodetable.go:106-118 | removes exactly the expired entries and counts them |
| `NodeTable.BoundedTableRefinesHistory` | internal/nodetable/nodetable.go:48-118 | over every run on a monotone clock with one expiry the bounded table answers every lookup, now and later, as an unbounded history would if and only if no insertion leaves more than maxSize keys in the forget window; its size never exceeds maxSize |
| `Node.SequenceManager.Next` | internal/engine/engine.go:59-68 | hands out consecutive numbers per source, wrapping at 65536 |
| `Node.Node.HandleFrame` | internal/prp/prp.go:397-456 | every arriving frame makes the node take exactly the specified step: new tables and counters, frames written, entry evicted |
| `Node.Node.HandleIncomingHsrFrame` | internal/prp/hsr.go:105-237 | the ring-port handler takes the specified step; `Lanes`, `Delivery` and `Accounting` say what that step writes, octet by octet, and counts |
| `Node.Node.AcceptQuadBoxFrame` | internal/prp/hsr.go:268-288 | a first copy from the other ring is registered and starts a fresh traversal on both ring ports |
| `Node.Node.HandleHsrInterlinkFrame` | internal/prp/hsr.go:291-359 | the interlink handler of an hsr-san or hsr-prp node takes the specified step |
| `Node.Node.HandleIncomingPrpFrame` | internal/prp/prp.go:460-543 | the LAN handler takes the specified step |
| `Node.Node.HandleInterlinkFrame` | internal/prp/prp.go:646-705 | the interlink handler of a PRP node takes the specified step; `Redundancy.SanFrameIsSent` says exactly when it sends, and what |
| `Node.Node.HandleSupervisionFrame` | internal/prp/prp.go:710-757 | hearing an announcement updates liveness, ring members, last number and, after a restart, the duplicate table |
| `Node.Node.ShouldForwardToInterlink` | internal/prp/prp.go:565-584 | the SAN filter decides as specified |
| `Node.Node.PeriodicCleanup` | internal/prp/prp.go:316-347 | the timer takes the specified step; `Housekeeping.TickForgets` says exactly who is forgotten |
| `Lanes.ForwardedOctets` | internal/prp/hsr.go:137-157 | a first copy on a ring port leaves on the other ring port unchanged but for the lane bit, which is 0 on LAN A and 1 on LAN B |
| `Lanes.ReinjectedOctets` | internal/prp/hsr.go:268-286 | a first copy from the other ring leaves on both ring ports with the path nibble cleared and nothing else changed |
| `Lanes.SanFrameEnters` | internal/prp/hsr.go:291-357 | every frame of a SAN is injected on both ring ports with path 0 and the next number of its source, which enters the proxy table |
| `Lanes.LanFrameEnters` | internal/prp/hsr.go:291-357 | a frame from the PRP LAN is injected exactly if it has an RCT, under the number in it and the configured NetId and LAN bit; its source enters the proxy table either way |
| `Housekeeping.StepKnown` | internal/prp/prp.go:316-347 | the complete effect of any event on the entry of a node among ring members, peers and proxied nodes: what teaches it, and that only a tick removes it |
| `Housekeeping.KnownIffLearned` | internal/prp/prp.go:328-347 | over every run a node is a ring member, a peer or proxied if and only if some step taught it and no later tick, at which a peer was remembered, found that older than the forget time |
| `Housekeeping.TickForgets` | internal/prp/prp.go:328-347 | a tick at t keeps exactly the members and peers learned at t minus the forget time or later, all of them if no peer is remembered, and exactly the duplicate entries that have not expired |
| `Housekeeping.FirstCopyTeaches` | internal/prp/hsr.go:129-135 | a first copy on a ring port makes its source a ring member as of now |
| `Housekeeping.AnnouncementTeaches` | internal/prp/prp.go:710-757 | an announcement, recognised by its octets, makes its source a peer as of now, on a ring port a ring member too, and its number the last one heard |
| `Accounting.CrashesExactly` | internal/prp/prp.go:397-456 | the only frames on which the source slices out of range, by their octets, port and role |
| `Accounting.IncomingVerdict` | internal/prp/hsr.go:105-134 | what becomes of every data frame from a ring or LAN: malformed, wrong LAN, own, duplicate or accepted, by its decoded fields and the table |
| `Accounting.RefusedIsSilent` | internal/prp/prp.go:460-522 | a refused frame is written nowhere and changes no table but, for a LAN frame without RCT, the proxy table |
| `Accounting.SupervisionRelayed` | internal/prp/prp.go:406-437 | supervision is consumed, and repeated unchanged by a QuadBox alone, from one ring to the other |
| `Accounting.BooksBalance` | internal/prp/hsr.go:35-62 | over every run of every role, with any failing writes, the port counters count exactly the data frames received and the frames written, and each drop counter exactly the frames lost for that reason, the reason following from path, addresses, filter and configuration |
| `Announcing.RoundTellsPeers` | internal/prp/prp.go:769-828 | a round takes the next number and announces the node on every redundant port and on the interlink of QuadBox and coupling nodes; a peer parses address and number out of each of these frames |
| `Announcing.RoundOctets` | internal/prp/prp.go:769-828 | every octet of a round by role, port and configuration: ring dialect with the configured path, LAN dialect with the LAN of the port or of the coupling node |
| `Announcing.ConsecutiveRounds` | internal/prp/prp.go:774 | rounds are numbered consecutively over every run |
| `Announcing.FirstRound` | internal/prp/prp.go:774 | the first round of a new node has number 1 |
| `Announcing.RunningNodeIsNotFlushed` | internal/prp/prp.go:740-756 | a peer that hears a running node's announcements in order, fewer than 32768 rounds from one to the next, never takes it for restarted |
| `NodeRun.AcceptedIffNothingBlocks` | internal/prp/prp.go:512-522 | over every run mixing data, supervision, timers and flushes, a copy is accepted if and only if every earlier registration of its key is older than the forget time or was undone by a flush of its source or an eviction |
| `NodeRun.AtMostOnce` | internal/prp/hsr.go:127-134 | two acceptances of a key are more than the forget time apart or separated by a flush of its source or an eviction of the key |
| `NodeRun.RegistrationLasts` | internal/nodetable/nodetable.go:73-118 | a registered key stays in the table for the forget time unless its source is flushed or it is evicted |
| `NodeRun.EntryHasOrigin` | internal/nodetable/nodetable.go:48-70 | every entry stems from a registration nothing has undone since |
| `NodeRun.StepHasEffect` | internal/prp/prp.go:397-456 | the complete effect of any step on the duplicate table and the supervision numbers |
| `Window.EvictsOnlyExpired` | internal/nodetable/nodetable.go:55-70 | if the keys registered within any forget time fit the table, an eviction removes an expired entry |
| `Window.KeptWhileFresh` | internal/nodetable/nodetable.go:48-85 | then a registered key is not forgotten within the forget time unless its source is flushed |
| `Window.AtMostOnceIfFitting` | internal/prp/prp.go:512-522 | then two acceptances of a key are more than the forget time apart or separated by a flush of its source |
| `Conservation.FramesAreConserved` | internal/prp/hsr.go:105-237 | in every hsr-san run with successful writes, ring-in is interlink-out plus malformed, own, duplicate and filter drops, and ring-out is twice interlink-in plus interlink-out plus filter drops |
| `Conservation.DecodedIsComplete` | internal/engine/hsr.go:118-157 | once decoding succeeded, rewriting and stripping cannot fail |
| `Numbering.ConsecutiveNumbers` | internal/engine/engine.go:55-68 | over every run of every role the frames a node numbers for a source get consecutive numbers, whatever happens in between |
| `Numbering.NumbersRepeat` | internal/engine/engine.go:59-68 | a number comes back after 65536 steps and not earlier |
| `Numbering.ReusedAfterWrap` | internal/prp/prp.go:683-688 | two frames of a source share a number only if 65536 frames of it were sent from one to the other |
| `Numbering.KeyReusedAfterWrap` | internal/prp/hsr.go:319-328 | an hsr-san node injects a key again only after 65536 injections of its source |
| `Numbering.RegressedIffFar` | internal/prp/prp.go:745-747 | the signed 16-bit difference is negative exactly if the counter is more than 32767 steps ahead |
| `Numbering.FlushIffRestarted` | internal/prp/prp.go:740-756 | an announcement flushes if and only if its number is more than 32767 steps ahead of the last one heard; it then removes the entries of that source and no others, and otherwise none |
| `Numbering.NeverFlushed` | internal/prp/prp.go:740-756 | a peer whose numbers advance by 0 to 32767 modulo 65536 is never flushed, across any number of wraps |
| `Flood.Coverage` | internal/prp/hsr.go:127-173 | of duplicate-suppressed flooding on any graph: at rest, if no port is kept back, the nodes reached are exactly those reachable from a launcher over links that did not lose every copy |
| `Flood.SeenAreReachable` | internal/prp/hsr.go:127-173 | whatever is lost, duplicated or kept back, only such nodes are reached |
| `Flood.JoinsOnce` | internal/prp/hsr.go:127-134 | each node takes the key at most once, and exactly once if it was reached without launching |
| `Flood.ArrivalLowersEnergy` | internal/prp/hsr.go:119-157 | copies in flight plus two per unreached node strictly falls at every arrival |
| `Flood.ArrivalsAreBounded` | internal/prp/hsr.go:119-157 | arrivals are bounded by the size of the network, the launches and the duplications |
| `Flood.RingTransmissions` | internal/prp/hsr.go:137-157 | on two-port nodes one launch causes at most one transmission per node reached and one more, exactly so many if no port is kept back |
| `KeyFlow.StepArrivalFlow` | internal/prp/hsr.go:105-289 | what any frame on an HSR port makes a node send and deliver, in terms of the tag it carries |
| `KeyFlow.StepEntryFlow` | internal/prp/hsr.go:291-357 | what a frame from the SAN or PRP LAN makes a node inject |
| `KeyFlow.StepTimerFlow` | internal/prp/prp.go:769-828 | timers put no tagged frame on the ring |
| `KeyFlow.TaggedCarries` | internal/prp/hsr.go:299-346 | an injected frame that fits the tag carries its addresses, number, NetId and its own bytes |
| `Network.TagInvariant` | internal/prp/hsr.go:105-357 | what every injection of a key establishes holds of every copy of it, at any time, in any run of any network |
| `RingFlood.Refines` | internal/prp/hsr.go:105-357 | for every data key, every step of a network in which no live entry of the key expires, is evicted or flushed is a step of flooding, and acceptances are its joins |
| `RingFlood.ProperUsesAll` | internal/prp/hsr.go:159-173 | a frame that fits the tag and, if there are QuadBoxes, is multicast is kept back from no port |
| `Ring.RingCoverage` | internal/prp/hsr.go:127-173 | rings or QuadBox-joined rings of any size, any links down, copies lost or duplicated, every interleaving, for frames that fit the tag and are multicast if there are QuadBoxes: at rest the nodes holding a key are exactly those connected to an injector over links that did not lose every copy, and each that did not inject it accepted it exactly once |
| `Ring.AllSurvive` | internal/prp/hsr.go:127-173 | if no copy was lost, these are all links that are up |
| `Ring.RingReach` | internal/prp/hsr.go:127-173 | for every data key and at any moment, only nodes so connected hold it |
| `Ring.RingAtMostOnce` | internal/prp/hsr.go:127-134 | for every data key, at any moment and whatever is lost or duplicated, no node has accepted it twice, and each holder that did not inject it once |
| `Ring.LoopFreedom` | internal/prp/hsr.go:119-157 | for every data key, copies in flight plus twice the nodes without it strictly falls whenever a copy arrives, and only an injection or a duplicating link can raise it |
| `Ring.NoStorm` | internal/prp/hsr.go:263-286 | for every data key, the number of arrivals in any run is bounded by the size of the network, the injections and the duplications |
| `Ring.RingTraffic` | internal/prp/hsr.go:137-157 | one injection into a ring of n nodes causes at most one transmission per node that comes to hold the key and one more, so at most n + 1; exactly so many if the frame fits the tag |
| `Delivery.RingDelivery` | internal/prp/hsr.go:175-235 | every node connected over links that did not lose every copy accepts an injected frame in exactly one step; an hsr-san node then writes it to its SAN byte for byte if and only if the ring-member filter lets it out and the SAN filter passes its payload; an hsr-prp node writes it with number and LAN in an RCT if and only if it comes from another PRP network |
| `SanPolicy.FilterReadsSixOctets` | internal/prp/prp.go:565-617 | the filter decides by the first six octets it is given, read as a destination, as the documented policy says |
| `SanPolicy.PolicyFollowedIff` | internal/prp/hsr.go:220-224 | exactly when an accepting hsr-san node follows the policy for the frame, by what its payload starts with |
| `SanPolicy.BroadcastPassesIff` | internal/prp/prp.go:588-604 | exactly when a broadcast, which is to pass always, does at an hsr-san node |
| `SanPolicy.FirstCopyAtSan` | internal/prp/hsr.go:215-231 | what a step of an hsr-san node does with a first copy: exactly when it reaches the SAN |
| `SanPolicy.EvenBroadcastIsWithheld` | internal/prp/hsr.go:220-224 | in a step of an hsr-san node that has learned no SAN, a broadcast whose payload starts with an even octet is accepted and withheld, for every pattern, although the policy wants it |
| `SanPolicy.ArpIsEvenBroadcast` | internal/prp/prp.go:589-591 | an ARP request is such a frame |
| `Delivery.NetIdDecides` | internal/prp/hsr.go:177-204 | an hsr-prp node writes an accepted frame to its LAN if and only if its NetId differs from the one the frame was injected with, after any number of hops and in any run |
| `Delivery.NetworksTalk` | internal/prp/role.go:104-109 | by configured NetIds: in any run without QuadBoxes, a frame injected by coupling nodes with NetId a, 1 to 7, is written to the LAN of an accepting coupling node with NetId b if and only if b is not a |
| `Delivery.ReinjectionSafety` | internal/prp/hsr.go:177-204 | a frame injected by the coupling nodes of a PRP network is never written back to that network if and only if its NetId is below 8 |
| `Delivery.SanFramesPass` | internal/prp/hsr.go:177-193 | frames of SANs on the ring always pass to every PRP network |
| `Crossing.CrossingResets` | internal/prp/hsr.go:268-286 | what a QuadBox takes from the other ring it sends on with NetId 0 |
| `Crossing.WrittenBackIffReset` | internal/prp/hsr.go:177-204 | in any network, a coupling node writes a frame of its own PRP network back if and only if the copy has lost its NetId |
| `Crossing.ReinjectionAcrossRings` | internal/prp/hsr.go:271 | for every frame with an RCT that fits the tag there is a run, through two QuadBoxes, in which that happens |
| `Delivery.NetIdFits` | internal/prp/hsr.go:299-302 | the path nibble carries a NetId exactly if it is below 8 |
| `Membership.StepLearns` | internal/prp/hsr.go:390-397 | a source becomes a ring member only by a first copy or an announcement on a ring port |
| `Membership.NeverMember` | internal/prp/hsr.go:129-135 | a source that gets onto the ring of a node only through that node's interlink is never a ring member there while its entries live, behind a SAN port or across a QuadBox |
| `Membership.UnicastGoesHome` | internal/prp/hsr.go:215-231 | so unicast to it is never dropped by the ring-member filter: an hsr-san node writes the first copy to its SAN byte for byte if and only if the SAN filter passes the payload |
| `Membership.UnicastCrosses` | internal/prp/hsr.go:163-173 | and a QuadBox repeats it to the other ring with the tag it carried |
| `Redundancy.OneOfEachBatch` | internal/prp/prp.go:502-522 | of the copies of one frame exactly the first is accepted and the others are discarded |
| `Redundancy.StepSends` | internal/prp/prp.go:683-700 | both LANs get the same frame under the same number |
| `Redundancy.SanFrameIsSent` | internal/prp/prp.go:646-705 | for every frame of a SAN: sent with the source's next number exactly if trailers are enabled and the VLAN filter, by octets 12 to 15, lets it pass; copied as it is exactly if they are not and it passes; otherwise nothing is written; the source enters the proxy table exactly if it passes |
| `Redundancy.PrpEndToEnd` | internal/prp/prp.go:460-543 | over two LANs that lose, reorder and duplicate, a frame that the sender's VLAN filter lets pass, with trailers enabled, and of which a copy arrives reaches the far SAN exactly once, zero-padded, if its copies arrive within the forget time and reused numbers further apart, and meanwhile nothing flushes the source and the table evicts nothing live or is large enough |
| `Redundancy.RctOffered` | internal/prp/prp.go:397-500 | exactly when a copy reaches the duplicate check: it fits the RCT and is not taken for supervision |
| `Redundancy.OrdinaryIsData` | internal/prp/prp.go:406-416 | a frame that does not end inside its VLAN tags is taken for supervision exactly if its own type says so |
| `Coupling.CouplerDelivers` | internal/prp/hsr.go:364-372 | each connected coupling node hands a ring SAN's frame to its LAN exactly once under the number it had on the ring, with the configured LAN in the trailer |
| `Coupling.CouplingEndToEnd` | internal/prp/hsr.go:177-192 | such a frame is delivered behind a prp-san node exactly once with source, number and bytes kept up to padding, one LAN being enough |
| `Coupling.PrpToRing` | internal/prp/hsr.go:304-328 | a PRP frame that both coupling nodes inject, one from each LAN, is accepted by a node on the ring exactly once; an hsr-san node hands its SAN one of the two LAN copies, number and trailer kept, if and only if the filters let that copy pass |
| `Ber.EncodeLength` | internal/iec/ber.go:13-33 | the two loops write the shortest definite length |
| `Ber.LengthIsShortest` | internal/iec/ber.go:13-33 | no length field that reads as the same length is shorter: one byte below 128, no leading zero above |
| `Ber.EncodeTlv` | internal/iec/ber.go:36-38 | tag, length and payload |
| `Ber.ParseTlv` | internal/iec/ber.go:41-69 | the parser's result for every input, including lengths that wrap past 64 bits |
| `Ber.TlvRoundTrip` | internal/iec/ber.go:36-69 | parsing an encoded element followed by anything returns tag, payload and rest, for every length |
| `Ber.TruncationIsRefused` | internal/iec/ber.go:41-69 | no proper prefix of an element parses |
| `Apdu.Assemble` | internal/iec/goose.go:28-32 | the append loops concatenate the elements in order |
| `Apdu.OpenApdu` | internal/iec/goose.go:37-57 | the outer header as both parsers read it, including the reads out of range |
| `Apdu.WalkVisitsAll` | internal/iec/goose.go:64-91 | walking encoded fields visits exactly those fields in order |
| `Goose.BuildGooseApdu` | internal/iec/goose.go:11-33 | the twelve fields in order inside tag 0x61 |
| `Goose.ParseGooseApdu` | internal/iec/goose.go:36-94 | the loop reports what the walk over the fields finds, for every input; `Goose.LastFieldWins` says what that is |
| `Goose.GooseRoundTrip` | internal/iec/goose.go:11-94 | parsing what was built recovers both numbers and the data value, for any strings and trailing bytes, and the time up to its encoding |
| `Goose.GooseCarries` | internal/iec/goose.go:11-33 | any reader finds each argument under its own tag of the built APDU, the constants under theirs, and nothing under other tags |
| `Goose.LastFieldWins` | internal/iec/goose.go:64-91 | whatever the walk visits, each value reported is that of the last well-formed field with its tag |
| `Goose.GooseReports` | internal/iec/goose.go:36-94 | what the parser returns for any input: the last well-formed value of each field, zero for a missing one, and success exactly if both numbers and the data are there |
| `Goose.CutApduIsRefused` | internal/iec/goose.go:53-57 | an APDU cut inside its payload is refused |
| `Sv.BuildSvApdu` | internal/iec/sv.go:4-29 | the nested fields inside tag 0x60 |
| `Sv.ParseSvApdu` | internal/iec/sv.go:32-83 | the nested walk reports the last two-byte field 0x81, for every input |
| `Sv.SvRoundTrip` | internal/iec/sv.go:4-83 | the sample count is recovered although the security field reuses its tag |
| `Sv.SvCarries` | internal/iec/sv.go:4-29 | any reader finds one ASDU in the built APDU and in it each argument under its own tag |
| `Sv.CutApduPanics` | internal/iec/sv.go:32-52 | an APDU cut inside its payload makes the parser slice out of range |
| `Utc.EncodeUtcTime` | internal/iec/utc.go:10-24 | the buffer holds seconds, binary fraction and the valid flag |
| `Utc.UtcOctets` | internal/iec/utc.go:10-24 | the octets are the seconds modulo 2^32, the largest 24-bit fraction not later than the time, and 0x80 |
| `Utc.EpochFits` | internal/iec/utc.go:10-34 | the seconds survive if and only if they fit 32 bits |
| `Utc.UtcBound` | internal/iec/utc.go:10-34 | a decoded time never exceeds the encoded one and loses at most 60 ns |
| `Utc.UtcOrder` | internal/iec/utc.go:10-34 | the order of times survives |
| `LogBuffer.RingBuffer.constructor` | internal/tui/ringbuf.go:29-38 | an empty buffer, with 200 lines if the capacity is not positive |
| `LogBuffer.RingBuffer.Push` | internal/tui/ringbuf.go:67-74 | appends a line and keeps the last capacity lines |
| `LogBuffer.MostRecentKept` | internal/tui/ringbuf.go:67-74 | the lines kept are the most recent ones, as many as there is room for |
| `LogBuffer.RingBuffer.Write` | internal/tui/ringbuf.go:42-65 | after any writes the lines are the last capacity non-empty lines of all bytes written and pending is their unterminated tail |
| `LogBuffer.RingBuffer.Lines` | internal/tui/ringbuf.go:77-86 | the most recent lines, oldest first |
| `LogBuffer.SplitAnywhere` | internal/tui/ringbuf.go:42-65 | reading on from the unterminated tail gives the lines and tail of the whole text, however it is split |
| `LogBuffer.LinesSpellText` | internal/tui/ringbuf.go:49-59 | lines and tail spell out a text without empty lines: nothing is lost or invented |

## Left out

- Raw sockets, device setup, command-line wiring, terminal rendering and configuration loading: system calls and user interface.
- Goroutines, mutexes and the overflow of the frame channel: every handler call is one atomic step, as in the single processing loop.
- Role names: a configuration carries the role itself; an unknown name means prp-san.
- Log text and the debug branches that only write it.
- MAC addresses and table keys are octets and pairs instead of formatted text; no formatting is modelled.
- Counters are unbounded instead of 64-bit, and the counter of supervision frames sent is not kept.
- Instants are integers in milliseconds; the clock of a run never goes backwards.
- What follows when the source slices out of range (`Accounting.CrashesExactly` says on which frames it does), and nodes that write to an interlink they do not have: excluded by `NodeSpec.Safe` and `Role.Config.Valid`.
- Wire padding inside a network run: links carry frames unchanged; `Engine.WirePadding` and `Engine.Transparency` cover padding for the codecs.
- Supervision translation between the two sides of an hsr-prp node: not implemented in the source.
- Loop freedom of supervision bridging between QuadBoxes: the source has no duplicate check for it, so the network theorems are about data frames.
- Membership.NeverMember: assumes that no announcement of the source reaches the node on a ring port; it would make the source a ring member at once, and QuadBoxes repeat announcements without a duplicate check.
- MulticastPattern.PatternAgreement: case folding is modelled for ASCII letters only.
- Apdu.OpenApdu: a Go slice may extend into spare capacity of its buffer; reading there counts as out of range.
- The traffic generator's sending, timing and statistics, and the log buffer's tee to an external sink.
