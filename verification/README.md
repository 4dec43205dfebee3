# Caelo core: a verified model

Caelo's Go core is a set of small stateful parts that promise a good deal in their comments: a meter that
times round trips by watching packets and never counts a doubtful one; a takeover of the machine's routing
and resolver that can always be undone; two forms of configuration that must mean the same tunnel; and a
handful of objects shared between threads. This project models those parts in Dafny and proves the promises,
for every input and over every run. Where a promise does not hold of the code as it is, the project says
exactly when it does.

## How it is laid out

| file | what it holds |
|---|---|
| `RttPacket.dfy` | the IPv4, IPv6 and TCP header reader (section 3.1 of RFC 791, section 3 of RFC 8200, section 3.1 of RFC 9293) and the packet printer it undoes |
| `RttTrace.dfy` | the meter as a function of the events it was shown, and the theorems over whole runs, with Karn's rule (section 3 of RFC 6298) |
| `RttMeter.dfy` | the meter as it runs: a map, a slice filtered and shifted in its own storage, and the wrapped tun device |
| `Routes.dfy` | the IPv4 routing table and longest match (section 5.2.4.3 of RFC 1812) |
| `Network.dfy` | the host, the commands that change it, and Snapshot, Apply and Restore as what they run |
| `Takeover.dfy` | what Apply and Restore keep at every command, whatever fails |
| `Controller.dfy` | Start and Stop, and every run of them |
| `Strings.dfy` | trimming, cutting, splitting, case and numbers |
| `AwgConfig.dfy`, `AwgUapi.dfy` | the `.conf` reader, and the form the device is told, with a reader for it |
| `AwgEndpoint.dfy`, `AwgForms.dfy` | the subscription endpoint and what the device reads of it; the endpoint written out as a `.conf`, and when the two forms give the same |
| `SessionSlot.dfy` | any number of Connect and Disconnect calls around one device slot |
| `Idler.dfy` | the idle exit: connections, a timer that may fire late, a watcher |
| `Handshake.dfy` | the handshake clock and the handshake poller |
| `DiagLog.dfy` | the log buffer |
| `StateVersion.dfy` | the version of a subscription's node list |
| `Slices.dfy` | a slice shifted and appended to in its own storage |
| `Wrappers.dfy` | the option type and the byte the others share |

Code that updates state in place is a class or a method, proved against a function of the old state; what
the code is for is then proved of that function. Locks make each method one step; a concurrent run is a
sequence of such steps, in any order.

## What the proofs show about the code

- The figure of the meter is right for any clock, and its window is exact for a clock that does not go
  back. Karn's rule holds between the SYN that was recorded and its answer. The stronger reading, that the
  SYN of a counted connection went out only once, does not: five seconds after the first SYN an expiry
  forgets it, and the next resend is recorded as if it were the first
  (`RttTrace.ResendAfterExpiryIsCounted`). `RttTrace.CountedSynWentOutOnce` says exactly when it holds.
- A takeover that fails is undone at whatever command it failed, except that Restore removes the endpoint's
  own route and the two IPv6 halves whoever added them. `Takeover.UnwoundIsBaseline` is the exact condition,
  `Controller.EveryFailedStartRestores` the one that can be told before a Start, and
  `Controller.ForeignRouteIsLost` the case where it fails; `Controller.ForeignRouteHappens` has two machines, one
  with such a route and one with such a half, that a failed Start does not leave as they were.
- A node is told to the device line by line, and but for the flags its values are written as they came. Every
  node read from a `.conf` is read back as itself; a node from a subscription is read back as itself exactly
  when no text that is told of it spans lines (`AwgEndpoint.DeliveredNodeIsReadBack`). JSON can carry a line
  end: with one in `jc`, the device is told the very text of another node, one setting richer
  (`AwgEndpoint.LineEndIsAnotherNode`, `AwgEndpoint.LineEndHappens`).
- An endpoint and the same node in a file do not always converge. The file trims values and cuts allowed
  addresses at commas, where the endpoint passes them on as they are; and the endpoint is refused for its type,
  for a missing address or port and for a key with spaces around it, none of which stops the file.
  `AwgForms.FormsConverge` is the exact condition for every endpoint whose fields can stand on lines; where
  nothing of the kind is wrong with the node, the two always converge (`AwgForms.CanonicalConverges`).
  `AwgForms.DivergenceHappens` has a node whose file gives another configuration, and a refused one whose file
  is accepted.
- An endpoint without allowed addresses means all of IPv4, while a `.conf` without them means none
  (`AwgForms.WithoutAllowedLine`); a node written out as a file therefore has the default in it.
- The service is told to exit when nobody came or went for the idle time, except by a late callback: the timer
  was stopped too late to hold it back, and it sends as soon as the connection that came in between is done
  (`Idler.ExpiriesAreIdle`, `Idler.EarlyExactly`, `Idler.EarlyExpiryHappens`).
- The idle watcher hears of one expiry and the channel keeps one more. A third one blocks its sender with the
  idler's lock in hand, so that no connection is counted again (`Idler.ThirdExpiryWedges`,
  `Idler.WedgeIsReachable`).
- The log is bounded by 400 lines until verbose logging is switched while it is full, and from then grows
  until it is cleared (`DiagLog.ExactlyTheLastFourHundred`, `DiagLog.OverrunGrows`, `DiagLog.OverrunHappens`).
- The version of a node list tells lists apart, but a name that holds a line end can imitate two nodes
  (`StateVersion.VersionsAgreeExactly`, `StateVersion.LineEndSharesVersion`).

## Model

| member | source | states |
|---|---|---|
| RttPacket.PacketRoundTrip | core/internal/rtt/rtt.go:208-252 | reading a printed IPv4 packet gives exactly the printed addresses, ports, flags, sequence and acknowledgement numbers, whatever options are inserted and whatever bytes trail the announced length |
| RttPacket.Packet6RoundTrip | core/internal/rtt/rtt.go:230-251 | the same for IPv6 without extension headers |
| RttPacket.ReadingIsCanonical | core/internal/rtt/rtt.go:206-252 | any packet the reader accepts, of arbitrary bytes, is indistinguishable to it from the printed packet of what it read |
| RttPacket.ReadExactly | core/internal/rtt/rtt.go:206-252 | of arbitrary bytes the reader reads TCP exactly where a first fragment of IPv4 with protocol 6, or IPv6 with next header 6, has a whole TCP header behind its own, and exactly the fields that are there, whatever the rest of the headers holds |
| RttPacket.NibblesAreQuotients | core/internal/rtt/rtt.go:213-218 | the version and header length read by division are those read by shift and mask, for every first byte |
| RttPacket.FlagMasks | core/internal/rtt/rtt.go:127-150 | the arithmetic tests of the model are the mask tests of the code for every flags byte |
| RttPacket.BuildPacket | core/internal/rtt/rtttest/rtttest.go:18-32 | filling a zeroed buffer in place gives the packet the reader undoes |
| RttPacket.PrintedElsewhere | core/internal/rtt/rtttest/rtttest.go:18-32 | which holds zeroes where nothing is filled in |
| RttMeter.Meter.Outbound | core/internal/rtt/rtt.go:125-145 | the map and the slice stay those of the trace after one more outbound packet |
| RttMeter.Meter.Inbound | core/internal/rtt/rtt.go:148-175 | the same for an inbound packet, through the overlapping copy that drops the oldest sample and an append that may move the storage |
| RttMeter.Meter.Latency | core/internal/rtt/rtt.go:82-98 | the figure and its presence are those of the trace so far |
| RttMeter.Meter.Forget | core/internal/rtt/rtt.go:102-108 | measuring starts over, while SYNs sent before may still be answered |
| RttMeter.Meter.KeepFresh | core/internal/rtt/rtt.go:177-193 | filtering a slice into its own storage keeps exactly the samples in the window, in order, and the second pass over the old samples still finds them when none was kept |
| Slices.DropFirst | core/internal/rtt/rtt.go:170-172 | copying a slice onto itself one place down loses exactly the first element, for the samples as for the log's lines |
| RttMeter.Meter.DropStale | core/internal/rtt/rtt.go:194-198 | deleting from a map while ranging over it in any order leaves exactly the SYNs still waiting |
| RttMeter.Milliseconds | core/internal/rtt/rtt.go:110-122 | zero exactly when there is no meter or nothing was accepted since the last Forget; else the whole milliseconds of the figure, which is the time of an accepted round trip, or one when it is shorter than that |
| RttMeter.ShowRead | core/internal/rtt/rtt.go:267-275 | every buffer the device filled, cut to what it filled, is shown as outbound, in order, and no slice leaves its buffer |
| RttMeter.ReadIsShown | core/internal/rtt/rtt.go:267-275 | the packets shown are those of the buffers that hold what the device says it filled, each once, in order, cut to it, and as outbound |
| RttMeter.ShowWrite | core/internal/rtt/rtt.go:280-287 | every buffer past its offset is shown as inbound, in order |
| RttMeter.WriteIsShown | core/internal/rtt/rtt.go:280-287 | the packets shown are those of the buffers longer than the offset, each once, in order, from the offset on, and as inbound |
| RttTrace.Bounded | core/internal/rtt/rtt.go:36-42 | over every run and for any clock, at most 512 flows wait and at most 256 samples are kept |
| RttTrace.FigureIsAccepted | core/internal/rtt/rtt.go:78-98 | for any clock, a figure is reported exactly when a round trip was accepted since the last Forget, and it is the time of one of those, more than zero and at most five seconds |
| RttTrace.FigureIsLeastOfLastKept | core/internal/rtt/rtt.go:82-98 | for any clock, the figure is the least of the samples now kept or, in an empty window, of those that expired last |
| RttTrace.FigureHeldThroughSilence | core/internal/rtt/rtt.go:78-98 | for any clock, between two looks with nothing accepted and no Forget the figure never goes down, and once the window is empty it does not move, even when an outbound SYN triggers an expiry |
| RttTrace.AcceptedPairs | core/internal/rtt/rtt.go:148-175 | Karn's rule for any clock: an accepted answer pairs with one recorded SYN of the mirrored flow, acknowledges it modulo 2^32, arrives within five seconds, and nothing of the flow lies between |
| RttTrace.ConnectionIsTimed | core/internal/rtt/rtt.go:125-175 | of a flow that is not waiting, with room in the table, a packet out with SYN alone and one back with SYN and ACK, its addresses and ports exchanged and acknowledging the first within five seconds, are exactly one sample more: the time between the two |
| RttTrace.PrintedConnectionIsTimed | core/internal/rtt/rtt.go:125-175 | the same of the printed packets of either version |
| RttTrace.OtherProtocolsAreIgnored | core/internal/rtt/rtt.go:127-152 | a packet that is not TCP leaves the meter as it was, in either direction |
| RttTrace.OtherFlagsAreIgnored | core/internal/rtt/rtt.go:127-152 | and so does one out that is no first SYN, and one in that is no SYN-ACK |
| RttTrace.EverySampleIsARoundTrip | core/internal/rtt/rtt.go:125-175 | the same for every sample accepted since the last Forget: its two events in the trace, and its time their difference |
| RttTrace.CountedSynWentOutOnce | core/internal/rtt/rtt.go:52-55 | the SYN of a counted connection went out once since the flow's last answer exactly when the table neither turned one of its SYNs away nor expired its entry |
| RttTrace.ResendAfterExpiryIsCounted | core/internal/rtt/rtt.go:133-144 | a run in which the answer to a resent SYN is counted |
| RttTrace.RecordedExactly | core/internal/rtt/rtt.go:133-144 | a SYN of a flow that is not waiting is recorded exactly when fewer than 512 flows wait whose SYN is at most five seconds old, so expired entries never keep one out |
| RttTrace.CountedExactly | core/internal/rtt/rtt.go:125-175 | with a clock that does not go back, an answer is counted exactly when it pairs with a recorded SYN, so no countable answer is lost to other flows, looks or expiries in between |
| RttTrace.WindowIsExact | core/internal/rtt/rtt.go:82-98 | with a clock that does not go back, the samples left by Latency are exactly those of the last 256 accepted since the last Forget that are at most ten seconds old, and a window that is not empty reports the least of them |
| RttTrace.SubExactly | core/internal/rtt/rtt.go:163-166 | a difference of clock readings is exact as far as 64 bits hold it, and the nearer bound beyond |
| RttTrace.ForgetLeavesPending | core/internal/rtt/rtt.go:102-108 | Forget leaves the SYNs that wait and nothing else |
| Routes.LongestIsLongest | core/internal/system/network_linux.go:113-115 | the route found has the longest matching prefix of the table |
| Routes.HalvesCover | core/internal/system/network_linux.go:169-172 | every IPv4 address lies in one of the two halves |
| Routes.DelUndoesInsert | core/internal/system/network_linux.go:231-234 | deleting the first route of a prefix undoes adding one in front, whatever else is routed there |
| Network.Machine.Apply | core/internal/system/network_linux.go:116-167 | the commands run, their order, which failures end the takeover, and the host after every one of them |
| Network.Machine.ApplyDns | core/internal/system/network_linux.go:174-212 | the same for the resolver, by resolved or by the file, and the refusal of a server that is no address |
| Network.Machine.Restore | core/internal/system/network_linux.go:219-247 | every undo command runs whatever failed before it, and the problems reported are the noted failures |
| Network.Machine.RestoreDns | core/internal/system/network_linux.go:249-276 | the resolver's undo: revert, relink, remove or rewrite |
| Network.FaultsAreFailures | core/internal/system/network_linux.go:43-50 | a command that something befalls reports failure, having done nothing, all of it, or a write of something else |
| Takeover.PlanMid | core/internal/system/network_linux.go:116-167 | for every fault of every command, including a write broken off and a command that works but reports failure, the host stays between its baseline and a full takeover: halves only behind the pin, nothing else touched, no link written through |
| Takeover.ApplyIsOrderly | core/internal/system/network_linux.go:132-144 | the order Apply uses is one that keeps this |
| Takeover.ApplyBetween | core/internal/system/network_linux.go:116-167 | stopped at any command by any failure, Apply leaves such a host; run to its end it leaves all three routes |
| Takeover.EndpointStaysOut | core/internal/system/network_linux.go:132-137 | in no such host does longest match send the endpoint's address into the tunnel |
| Takeover.EverythingElseGoesIn | core/internal/system/network_linux.go:111-144 | after a successful Apply every address goes by longest match to the old gateway if it is the endpoint, to its old route if that had two bits or more, and otherwise into the tunnel |
| Takeover.EndpointKeepsItsWay | core/internal/system/network_linux.go:60-81 | where only the default routes led to the endpoint, its packets keep the gateway and interface they had |
| Takeover.ApplyAnswers | core/internal/system/network_linux.go:174-212 | after a successful Apply every name is resolved by the tunnel's servers, all of them in order: through resolved's claim on every name, or through a file of its own that lists them |
| Takeover.FileIsItsLines | core/internal/system/network_linux.go:192-200 | read line by line that file is its two comments and a nameserver line for each server, in order |
| Takeover.ApplyRaises | core/internal/system/network_linux.go:117-158 | and the interface is addressed, up and of the MTU asked for, and IPv6 unreachable in each half the kernel did not refuse |
| Takeover.ApplySucceedsExactly | core/internal/system/network_linux.go:116-212 | with no command failing for other reasons, Apply succeeds exactly when the gateway's interface is up, no route of metric zero stands where its own three go, and, without resolved, every server is an address |
| Takeover.RestoreUndoes | core/internal/system/network_linux.go:214-276 | from every host a takeover can stop at, Restore brings back routes, resolver and interface settings, at none of its commands does the endpoint's address lead into the tunnel, and the problems it reports are the routes it did not find, none after a complete takeover |
| Takeover.RestoreGoesOn | core/internal/system/network_linux.go:214-247 | whatever fails, on whatever host, Restore goes on to its last command |
| Takeover.RestoreReports | core/internal/system/network_linux.go:219-247 | where all of it fails, the two halves, the endpoint's route and the resolver are reported, the last unless all there was to undo of it was a file of its own |
| Takeover.UnwoundIsBaseline | core/internal/system/network_linux.go:219-276 | with the device closed, the machine is what it was exactly when it had no IPv6 half of its own and either Apply added the pin or the machine had no route of its own to the endpoint |
| Controller.Controller.Start | core/internal/systunnel/controller.go:75-189 | tearing down what is up, every early exit and its unwinding, and the fields of a tunnel that came up |
| Controller.Controller.Stop | core/internal/systunnel/controller.go:195-218 | restoring before closing, with nothing up no change, and the problems of the Restore |
| Controller.FailedStartRestores | core/internal/systunnel/controller.go:75-167 | a failed Start leaves the machine as it was exactly when it never reached Apply or the condition of the transaction holds |
| Controller.EveryFailedStartRestores | core/internal/systunnel/controller.go:75-167 | for a configuration that gets as far as Apply at all, every failed Start leaves the machine as it was if and only if it had no IPv6 half and no route to the endpoint of its own |
| Controller.EveryRunRestores | core/internal/systunnel/controller.go:75-218 | over every sequence of Start and Stop, with any of Apply's commands failing and the handshake timing out at will, the machine is exactly its baseline whenever no device is held, and fully taken over whenever one is: routes, resolver, and the interface addressed, up and of the MTU asked for |
| Controller.HeldServesLastStart | core/internal/systunnel/controller.go:130-189 | whenever a tunnel is held after a run, the machine serves the configuration of the last Start: its address, MTU, endpoint and servers in order, 1.1.1.1 alone where it has none; and the status tells its endpoint, protocol, obfuscation and time |
| Controller.StartSucceedsExactly | core/internal/systunnel/controller.go:75-189 | with no command failing for other reasons, a Start brings the tunnel up exactly when each of its other steps goes well and the machine is on a network and ready for the takeover |
| Controller.StopReportsNothing | core/internal/systunnel/controller.go:201-218 | stopping a tunnel that is up reports no problem |
| Controller.ForeignRouteIsLost | core/internal/system/network_linux.go:234-234 | where the machine had a route of its own to the endpoint, a Start that fails at its first command takes it away |
| Controller.ForeignRouteHappens | core/internal/system/network_linux.go:234-242 | a machine with a route of its own to the endpoint and a machine with an IPv6 half of its own, and a failing Start that leaves neither as it was |
| Strings.SplitText | core/internal/awg/config.go:128-128 | splitting lines that were put together gives the lines back |
| Strings.AtoiItoa | core/internal/awg/config.go:235-239 | a printed 64-bit number reads back as itself |
| Strings.AtoiExactly | core/internal/awg/config.go:235-239 | a number is an optional sign and digits whose value fits 64 bits, and nothing else is |
| Strings.ItoaExactly | core/internal/awg/endpoint.go:247-252 | a printed number has a sign only where it is negative and no zero in front |
| Strings.TrimExactly | core/internal/awg/config.go:129-145 | trimming takes the spaces off both ends and nothing else |
| Strings.SpacesAre | core/internal/awg/config.go:129-129 | the spaces are those of Unicode's White_Space property |
| Strings.LowerExactly | core/internal/awg/config.go:135-144 | lower case of the ASCII letters, of the two others that become ASCII, and of nothing else |
| AwgConfig.KeyIsItsBytes | core/internal/awg/config.go:295-305 | the base64 of any 32 bytes reaches the device as the hex of those bytes |
| AwgConfig.KeyExactly | core/internal/awg/config.go:295-305 | a value is a key exactly when it is, passing over line ends, 43 base64 digits and a pad, and it is then the hex of what they stand for |
| AwgConfig.AlphabetIs | core/internal/awg/config.go:296-298 | the digits of a key are the letters, large and small, the figures, plus and slash, in that order |
| AwgConfig.SextetExactly | core/internal/awg/config.go:296-298 | and no other character is one |
| AwgConfig.HexBytesExactly | core/internal/awg/config.go:304-304 | the hex of bytes is two digits of each, the higher half first, in order |
| AwgConfig.LineEndIsPassedOver | core/internal/awg/config.go:296-298 | a line end of either kind anywhere in a key is passed over |
| AwgConfig.ParseConfig | core/internal/awg/config.go:123-171 | the line loop reads what the function of the text says, with every error path |
| AwgConfig.MutableConfig.SetInterfaceKey | core/internal/awg/config.go:173-210 | what one key of the interface sets, and that an error changes nothing |
| AwgConfig.MutableConfig.SetPeerKey | core/internal/awg/config.go:212-242 | the same for the peer, allowed addresses appended in order |
| AwgConfig.ReadAddrList | core/internal/awg/config.go:307-326 | the addresses of a list, empty parts passed over, none when one part is no address |
| AwgConfig.ListExactly | core/internal/awg/config.go:307-326 | a list reads as these addresses exactly when its parts between commas, trimmed and not empty, read as them one by one |
| AwgConfig.KeptConcat | core/internal/awg/config.go:226-231 | the parts kept of a list are those kept of its front and of its rest, in order |
| AwgConfig.KeptOne | core/internal/awg/config.go:226-231 | of one part it keeps the part trimmed, and nothing where that is empty |
| AwgConfig.ReadConfIsClean | core/internal/awg/config.go:123-171 | no field of a configuration read from any text spans lines when it is rendered |
| AwgConfig.ReadConfIsComplete | core/internal/awg/config.go:161-169 | no configuration is read without a private key, a peer's public key and an address |
| AwgForms.NoiseIsIgnored | core/internal/awg/config.go:128-132 | a comment or an empty line anywhere in a file changes nothing |
| AwgForms.UnknownKeyIsPassedOver | core/internal/awg/config.go:173-242 | under a header of the interface or the peer, in any case, a line that sets a key not known there changes nothing of what the file is read as, wherever it stands and however it is spaced |
| AwgForms.KeyOutsideSections | core/internal/awg/config.go:147-157 | before any header a line that sets a key refuses the file |
| AwgEndpoint.EndpointConfig | core/internal/awg/endpoint.go:137-243 | the endpoint's own conversion, with every refusal |
| AwgEndpoint.FieldsConverted | core/internal/awg/endpoint.go:151-242 | each field of the configuration is that of the endpoint: keys as hex, all addresses and servers in order, MTU and allowed addresses or their defaults, the keepalive, host and port to be taken apart again, and every parameter that is not empty, as it is but for the one that is a key |
| AwgEndpoint.ListsExactly | core/internal/awg/endpoint.go:162-180 | its entries read as these addresses exactly when all their parts do, one by one |
| AwgEndpoint.JoinedComesApart | core/internal/awg/endpoint.go:245-252 | host and port joined come apart, as an endpoint is taken apart (core/internal/systunnel/controller.go:247), into the same host and port, an IPv6 address with or without brackets of its own |
| AwgEndpoint.SetScalars | core/internal/awg/endpoint.go:214-240 | ranging over the parameter map in any order sets the same values and fails in the same cases |
| AwgForms.InterfaceReads | core/internal/awg/config.go:173-210 | the interface section of a file, values with any spaces around them, gives each value trimmed, every address of every list, and each parameter under its own name, or fails where one of them does not read |
| AwgForms.PeerReads | core/internal/awg/config.go:212-242 | the same for the peer section, with all parts of all lines of allowed addresses in order |
| AwgForms.DefaultsRead | core/internal/awg/config.go:123-171 | a file of the two keys and an address alone is read with an MTU of 1420 and nothing else |
| AwgConfig.BracketsExactly | core/internal/awg/config.go:134-137 | the name of a section is the header without any of the brackets around it |
| AwgForms.RenderingGives | core/internal/awg/config.go:123-171 | the file of any endpoint whose fields can stand on lines is read as what its fields mean, or refused |
| AwgForms.FileAllowedExactly | core/internal/awg/config.go:227-232 | allowed addresses come through a file as they are exactly when each is one address, trimmed and not empty |
| AwgForms.FormsConverge | core/internal/awg/endpoint.go:122-134 | for every endpoint whose fields can stand on lines: its file is accepted exactly when its keys, trimmed, and its lists of addresses read; the endpoint itself exactly when besides its type, its far end and its keys as they stand are right; and both give the same configuration, or the same refusal, exactly when the file does not read, or the endpoint is accepted, its values are trimmed and its allowed addresses single ones |
| AwgForms.CanonicalConverges | core/internal/awg/endpoint.go:122-134 | so an endpoint of the right type, with a far end and no stray space, line end or comma, always converges with its file |
| AwgForms.DivergenceHappens | core/internal/awg/endpoint.go:137-243 | an accepted node whose file is read as another configuration, and a refused one whose file is accepted |
| AwgForms.WithoutAllowedLine | core/internal/awg/endpoint.go:208-211 | without a line for the default, the file of an endpoint that names no allowed address allows none where the endpoint allows all of IPv4 |
| AwgForms.LooksLikeJsonExactly | core/internal/awg/endpoint.go:267-276 | a text is taken for JSON exactly when its first character, spaces aside, is a brace |
| AwgForms.EitherFormParses | core/internal/awg/endpoint.go:254-265 | a node pasted as a file and the same node in a subscription's form parse to the same configuration exactly under that condition, and always in the canonical form |
| AwgEndpoint.DeliveredNodeIsReadBack | core/internal/awg/endpoint.go:122-134 | a node from a subscription that is accepted is rendered so that its own keys, values and peer are read back exactly when its host, its allowed addresses and the values told of it hold no line end |
| AwgEndpoint.LineEndIsAnotherNode | core/internal/awg/config.go:274-287 | a value with a line end and a setting after it is told as the node that has both settings is, and not read back |
| AwgEndpoint.LineEndHappens | core/internal/awg/endpoint.go:137-243 | a concrete node, accepted, with such a value in `jc` |
| AwgUapi.Ipc | core/internal/awg/config.go:249-293 | the builder writes the lines in their order, peer settings after public_key |
| AwgUapi.ReadBackExactly | core/internal/awg/config.go:244-293 | reading the rendering line by line, cut at the first '=' and with public_key opening the peer, recovers every field of a configuration exactly when no text of it, as it is told, spans lines |
| AwgUapi.LineEndTellsMore | core/internal/awg/config.go:274-287 | two different configurations, one with a value that spans lines, are told as the same text |
| AwgUapi.WrittenConfIsReadBack | core/internal/awg/config.go:123-293 | every configuration that any text gives is recovered, with no condition |
| AwgUapi.FlagsKeepTheirMeaning | core/internal/awg/config.go:83-103 | a flag the device would understand keeps its meaning, a file's words for on and off, in any case and spaced, become ones it understands, and anything else is passed on as it is |
| AwgUapi.OtherValuesAreTold | core/internal/awg/config.go:83-103 | what is no flag is told as it is |
| SessionSlot.EveryRunIsOwned | core/internal/tunnel/session.go:64-118 | over every interleaving of any number of calls, every device ever opened is in exactly one place, none is closed twice, and device, network and endpoint in the slot come from one Connect |
| SessionSlot.QuietMeansSlot | core/internal/tunnel/session.go:93-105 | when no call is in flight, the devices still open are exactly the slot's |
| SessionSlot.SlotIsLastExchange | core/internal/tunnel/session.go:93-99 | over every interleaving the slot is empty before any lock section of Connect and after the last Disconnect's, and otherwise holds the device and endpoint that the Connect which swapped last had opened |
| SessionSlot.FailedConnectLeavesSlot | core/internal/tunnel/session.go:82-102 | the steps of a failed Connect can be deleted from any run: everybody else takes the same steps, and slot, calls in flight, devices made and devices closed are the same but for the one it made |
| SessionSlot.UpTellsTheTruth | core/internal/tunnel/session.go:196-201 | Up reports a tunnel exactly when an open device is there, and the endpoint of the Connect that brought that very device |
| SessionSlot.Session.Connect | core/internal/tunnel/session.go:64-118 | undisturbed, a failed Connect changes nothing and closes what it made; a successful one closes the previous device |
| SessionSlot.Session.Disconnect | core/internal/tunnel/session.go:183-194 | the slot is emptied and what was in it closed |
| SessionSlot.ConnectIsItsSteps | core/internal/tunnel/session.go:82-105 | the steps of one Connect taken together are what the method does |
| SessionSlot.FailedConnectIsItsSteps | core/internal/tunnel/session.go:82-91 | the steps of a Connect that fails leave the slot and one device more, closed |
| SessionSlot.DisconnectIsItsSteps | core/internal/tunnel/session.go:183-194 | the steps of a Disconnect: the slot is emptied under the lock, and what was in it closed after |
| SessionSlot.OverlapHappens | core/internal/tunnel/session.go:64-105 | a run in which a Connect fails after another has brought its tunnel up, which stays |
| Idler.HoldersAreConnections | core/cmd/caelo-service/main.go:181-197 | across every interleaving the holders are the connections not finished, and one more once the watcher found a tunnel up; the clamp to zero never changes anything |
| Idler.ExpiriesAreIdle | core/cmd/caelo-service/main.go:171-179 | an expiry is sent only while nobody holds, at most one between two who come to hold, none after the watcher takes its hold, and, unless its callback was started before somebody last came to hold, only when nobody came or went for the whole idle time |
| Idler.CallbacksAreCounted | core/cmd/caelo-service/main.go:160-197 | every callback started gets the lock once or is on its way, at most one of them started since anybody last came to hold |
| Idler.EarlyExactly | core/cmd/caelo-service/main.go:171-187 | before that time an expiry can be sent exactly when nobody holds and a callback from before somebody last came to hold is under way; the timer is running again then |
| Idler.EarlyExpiryHappens | core/cmd/caelo-service/main.go:171-197 | a run in which an expiry is sent with no idle time passed |
| Idler.NoExpiryIsLost | core/cmd/caelo-service/main.go:181-197 | while nobody holds, the timer runs, its callback is on its way, or an expiry was sent |
| Idler.ThirdExpiryWedges | core/cmd/caelo-service/main.go:160-179 | the third expiry is the last and exactly what leaves a sender waiting for good with the lock in hand |
| Idler.WedgedForever | core/cmd/caelo-service/main.go:94-104 | from then on, over any continuation, no connection is counted any more: nobody gets the lock, and only time passes, the timer runs out and the watcher stops |
| Idler.WedgeIsReachable | core/cmd/caelo-service/main.go:94-120 | a run that comes to it |
| Idler.Idler.FireLocked | core/cmd/caelo-service/main.go:171-179 | the callback's hold of the lock is the step of the model, and waits exactly when the channel is full |
| Idler.Idler.BusyLocked | core/cmd/caelo-service/main.go:181-187 | the same for somebody who comes to hold |
| Idler.Idler.IdleLocked | core/cmd/caelo-service/main.go:189-197 | the same for somebody who is done |
| Handshake.RoundTripIsTheLatest | core/internal/probe/handshake.go:64-86 | over every trace the round trip runs from the latest initiation to the most recent response that had one outstanding, and a response that answers nothing changes nothing |
| Handshake.HandshakeClock.ObserveLine | core/internal/probe/handshake.go:64-79 | the fields stay those of the trace, which line is an initiation or a response told by the device's own words |
| Handshake.ParseDump | core/internal/handshake/handshake.go:14-30 | the result is the greatest number of seconds that any line tells behind last_handshake_time_sec=, positive and within what an instant holds, and zero when none does |
| Handshake.WrittenTimeIsTold | core/internal/handshake/handshake.go:17-24 | the line of a positive time of 64 bits, spaces around it or not, tells that time |
| Handshake.Wait | core/internal/handshake/handshake.go:33-44 | true only on the first read that shows a handshake, false only past the deadline with none shown, after at most timeout/200ms + 2 reads |
| DiagLog.LogIsASuffix | core/internal/diag/log.go:62-78 | the log is always the end of what was recorded since the last Clear, with nothing missing in between |
| DiagLog.ExactlyTheLastFourHundred | core/internal/diag/log.go:20-22 | it is the last 400 lines exactly as long as verbose logging was not switched on a full log since the last Clear |
| DiagLog.OverrunGrows | core/internal/diag/log.go:97-104 | once it was, every further line makes the log longer |
| DiagLog.OverrunHappens | core/internal/diag/log.go:97-104 | 400 lines and one switch come to that |
| DiagLog.Log.Logf | core/internal/diag/log.go:62-78 | the slice stays that of the trace through the copy onto itself and an append that may move it |
| DiagLog.Log.SetVerbose | core/internal/diag/log.go:97-104 | the same for the append that makes no room |
| DiagLog.Log.Lines | core/internal/diag/log.go:114-118 | the lines given out are those of the trace |
| StateVersion.VersionForgetsOrder | examples/subscription-server/main.go:366-383 | the version does not change under any reordering of the list, whatever the hash |
| StateVersion.VersionsAgreeExactly | examples/subscription-server/main.go:366-383 | for names without a line, other than the last, that ends in a colon and sixteen hex digits, and a hash that does not collide on what is hashed for them, two lists get one version exactly when they hold the same nodes with the same content, each as often |
| StateVersion.LineEndSharesVersion | examples/subscription-server/main.go:380-383 | for any hash, two nodes and a single one whose name holds such a line get the same version |
| StateVersion.SortForgetsOrder | examples/subscription-server/main.go:382-382 | two lists sort alike exactly when they are permutations of each other |
| StateVersion.CaeloAnswer | examples/subscription-server/main.go:288-306 | the loop gives each name its node and what is said of it, in order |
| StateVersion.AnswerSays | examples/subscription-server/main.go:288-306 | each name is answered, in order, with its tag under the one type, and the country, description and maintenance the file has of it |
| StateVersion.SummaryMatchesAnswer | examples/subscription-server/main.go:288-306 | the ids of the summary are those of the Caelo answer, in order, exactly when every node encodes; then each entry has the tag the answer gives and the version of that node |
| StateVersion.ServeState | examples/subscription-server/main.go:360-383 | the loop computes id, version and server of every node and the version of the list, passing over what does not encode |

## Left out

- The host that undo commands leave behind when the environment makes them fail, and changes of the machine by others while a tunnel is up: beyond what runs and what is reported, Restore is modelled on the host as it finds it, without faults.
- The text of `ip` and `resolvectl` output: the model starts from the table, so Snapshot reads the first default route directly. A resolv.conf that exists but cannot be read is not modelled.
- An IPv6 endpoint, which Start accepts and the first route command then refuses: the endpoint of the model is an IPv4 address.
- The macOS and Windows takeovers: the same shape with fewer undo steps.
- The device, the netstack, tun adapters, sockets and the service protocol: a device is an identity that is open or closed, and a configuration that the device refuses is an outcome of the environment.
- Controller.Status and the handshake and latency it adds to the stored status: each is one call of a part modelled elsewhere.
- Address parsing, JSON and SHA-256: parameters of the functions that use them.
- Characters outside ASCII that change case, other than the two that become ASCII: a key is only compared with ASCII words. Strings are sequences of characters, so malformed UTF-8 is not modelled.
- Handshake.RoundTripIsTheLatest: does not model a difference of more than 292 years, at which Go's duration saturates; the meter's model does.
- Handshake.Wait: assumes that the clock does not go back and that a sleep lasts at least its length, because without that the loop need not end.
- SessionSlot.EveryRunIsOwned: does not model `upSince`, which nothing reads.
- Redaction and timestamps of log lines: a line is what was formatted before the lock.
- The shutdown path after the watcher finds no tunnel, which ends the process.
- Release verification, the probe's requests, and the rest of the subscription's answers (the plain document, the usage header, expiry): each reads or prints one value and keeps no state.
