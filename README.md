# A Dafny model of the OPENPPP2 client switcher

This project models two parts of the OPENPPP2 VPN client:
- the client's virtual network switcher, `VEthernetNetworkSwitcher`, in its Linux build;
- the server-URL helper `UriAuxiliary`.

The switcher sits between the TAP device and the exchanger that carries traffic to the VPN server. It does the following:
- It hands datagrams for other hosts of the virtual subnet to the exchanger's NAT.
- It forwards UDP, and drops QUIC traffic to ports 80 and 443 when QUIC is blocked.
- It forwards ICMP echoes. Echoes for the gateway, and echoes whose TTL runs out at the switcher, are parked under a 24-bit acknowledgement id. They are answered when the exchanger acknowledges that id: with an Echo Reply for the gateway, and with a Time Exceeded message otherwise.
- When constructed, it opens the QoS module, the exchanger and the HTTP proxy. It loads the IP-list route tables into a RIB (route information table) and a FIB (forwarding information table). It adds the server's own routes. On a hosted network it installs the routes and the DNS servers into the operating system.
- `ReleaseAllObjects` disposes of those services. It removes from the system only what was installed.

`UriAuxiliary::Parse` normalises a server URL, checks its scheme, takes apart the bracketed address, the port and the path, applies default ports and rebuilds a canonical URL. `Encode` and `Decode` are its percent-encoding. The encoding uses the unreserved set of section 2.3 of RFC 3986 and writes '+' for a space.

The Dafny modules are:
- `Text`: trimming, lower-casing, hex digits, decimal rendering and `atoi`.
- `Net`: addresses, frames and route entries, plus the Echo Reply and Time Exceeded builders.
- `IcmpTable`: the table of parked echoes and the ack-id counter, as values.
- `NetworkSwitcher`: the switcher, as the class `Switcher`.
- `UriAuxiliary`: URL parsing and percent-encoding.

The switcher's fields are class fields, and its methods update them in place. Calls into the exchanger, the TAP output and the operating system are appended to the field `log`. The boolean such a call returns is a parameter of the method that makes it. Each lifecycle method states its log as a specification function, for example `RouteInstalls`, `RouteRemovals` or `ReleaseEffects`. Lemmas relate those functions to each other.

Where the code and its documentation disagree, the model follows the code:
- Echoes addressed to the gateway are not answered on the spot. They are parked in the pending table and answered only after the exchanger acknowledges them (VEthernetNetworkSwitcher.cpp lines 300-304 and 332-374).
- `NewQoS` clamps the configured bandwidth at 0 before it checks for a negative value, so the Kbps scaling on line 411 never applies. `QosBandwidth` states this.
- The path guard on line 90 of UriAuxiliary.cpp compares with the length of the whole URL. That comparison always holds, so a host part ending in '/' yields the path "/". `PathAfterFirstSlash` states the resulting path.

## Model

| member | source | states |
|---|---|---|
| Text.LTrim | ppp/auxiliary/UriAuxiliary.cpp:35 | the result is the suffix of the input left after every leading space and starts with no space |
| Text.RTrim | ppp/auxiliary/UriAuxiliary.cpp:35 | the result is the prefix of the input left before every trailing space and ends with no space |
| Text.ToLower | ppp/auxiliary/UriAuxiliary.cpp:35 | same length, no upper-case letter, each upper-case ASCII letter mapped to its lower-case one and every other character kept |
| Text.ToHex | ppp/auxiliary/UriAuxiliary.cpp:186-187 | a nibble becomes a decimal digit or an upper-case letter A-F |
| Text.FromHex | ppp/auxiliary/UriAuxiliary.cpp:201-202 | a value below 16; a decimal digit or A-F reads as the value `ToHex` writes it for, a-f as the value of its upper-case form, and any other character as 0 |
| Text.FromHexToHex | ppp/auxiliary/UriAuxiliary.cpp:186-202 | reading back the hex digit written for a nibble gives that nibble |
| Text.NatToString | ppp/auxiliary/UriAuxiliary.cpp:171 | a non-empty string of decimal digits |
| Text.DigitsOfNatToString | ppp/auxiliary/UriAuxiliary.cpp:122 | reading back the decimal digits written for a number gives that number |
| Text.IntToString | ppp/auxiliary/UriAuxiliary.cpp:171 | a non-empty string with no upper-case letter, so a rebuilt URL stays lower-case |
| Text.DigitsValue | ppp/auxiliary/UriAuxiliary.cpp:122 | the value read from the leading digits is at least the value accumulated so far |
| Text.DigitsValueAppend | ppp/auxiliary/UriAuxiliary.cpp:122 | a run of digits one longer reads as ten times the shorter run plus the value of the last digit |
| Text.ToInt32 | ppp/auxiliary/UriAuxiliary.cpp:122 | the result is a 32-bit signed value congruent to the input modulo 2^32, and equal to it when it already fits |
| Text.Atoi | ppp/auxiliary/UriAuxiliary.cpp:122 | for a value in the range of `long`, the result is congruent to what `strtol` reads modulo 2^32; it is exactly that value when it fits in an `int` |
| Text.StrtolOfIntToString | ppp/auxiliary/UriAuxiliary.cpp:122 | `strtol` reads back every number that the decimal rendering writes |
| Text.AtoiOfLong | ppp/auxiliary/UriAuxiliary.cpp:122 | `atoi` of a rendered `long` is that number cut to 32 bits |
| Text.AtoiOfIntToString | ppp/auxiliary/UriAuxiliary.cpp:122 | `atoi` reads back every `int` that the decimal rendering writes |
| Net.IcmpOf | ppp/app/client/VEthernetNetworkSwitcher.cpp:296-297 | a frame exists exactly when the ICMP header decodes, and it carries the datagram's addresses and TTL |
| Net.ReplyTtl | ppp/app/client/VEthernetNetworkSwitcher.cpp:276 | the reply's TTL is one less than the request's, but never below 1 |
| Net.EchoReply | ppp/app/client/VEthernetNetworkSwitcher.cpp:198-221 | the message answers the echo: type Echo Reply, addresses swapped, same identifier, sequence and data, same code and the given TTL |
| Net.TimeExceeded | ppp/app/client/VEthernetNetworkSwitcher.cpp:223-246 | a Time Exceeded message, code 0, from the given source back to the sender, carrying the original datagram, with TTL 255 |
| IcmpTable.Increment | ppp/app/client/VEthernetNetworkSwitcher.cpp:346 | `++` on the 32-bit counter is +1 modulo 2^32, and plain +1 below the maximum |
| IcmpTable.Advance | ppp/app/client/VEthernetNetworkSwitcher.cpp:346-355 | one turn of the allocation loop moves the counter from c to c+1 within [0, MaxAckId) and back to 0 otherwise, so it stays in [0, MaxAckId] |
| IcmpTable.FirstFreeAbove | ppp/app/client/VEthernetNetworkSwitcher.cpp:343-359 | the smallest free id above the bound and at most MaxAckId, or none when every such id is taken |
| IcmpTable.FreeIdExists | ppp/app/client/VEthernetNetworkSwitcher.cpp:343-359 | a table with fewer than MaxAckId ids in range leaves a free id |
| IcmpTable.NextAckId | ppp/app/client/VEthernetNetworkSwitcher.cpp:343-361 | the id handed out is free, in [1, MaxAckId], and every id the counter passes on the way to it is taken |
| IcmpTable.NextAckIdUnique | ppp/app/client/VEthernetNetworkSwitcher.cpp:343-361 | that description fits exactly one id |
| IcmpTable.ParkKeepsRange | ppp/app/client/VEthernetNetworkSwitcher.cpp:361 | parking under the next id keeps every id in range and adds exactly one entry |
| IcmpTable.WalkDistance | ppp/app/client/VEthernetNetworkSwitcher.cpp:343-359 | the number of loop turns from a counter value to a target id is between 1 and MaxAckId + 1 |
| IcmpTable.AdvanceNears | ppp/app/client/VEthernetNetworkSwitcher.cpp:346-355 | each turn brings the counter one step nearer the target, and reaches it when one step away |
| IcmpTable.NextAckIdByDistance | ppp/app/client/VEthernetNetworkSwitcher.cpp:357-359 | every id nearer to the next id than the counter is taken |
| IcmpTable.Take | ppp/app/client/VEthernetNetworkSwitcher.cpp:250-262 | ids 0 and unknown ids yield nothing; otherwise the parked datagram and the table without that id, one entry smaller |
| IcmpTable.TakeOnce | ppp/app/client/VEthernetNetworkSwitcher.cpp:250-262 | an id is answered at most once: taking it a second time finds nothing |
| IcmpTable.AnyId | ppp/app/client/VEthernetNetworkSwitcher.cpp:94 | some member of a non-empty set of ids |
| IcmpTable.Removed | ppp/app/client/VEthernetNetworkSwitcher.cpp:103-105 | the table keeps exactly the ids not listed, with their entries unchanged |
| IcmpTable.RemovedExpired | ppp/app/client/VEthernetNetworkSwitcher.cpp:93-105 | removing the ids collected as expired is the sweep that keeps the entries expiring after `now` |
| IcmpTable.Swept | ppp/app/client/VEthernetNetworkSwitcher.cpp:93-105 | the sweep keeps exactly the entries expiring after `now`, unchanged |
| IcmpTable.SweptLater | ppp/app/client/VEthernetNetworkSwitcher.cpp:93-105 | a sweep at a later time subsumes an earlier one |
| IcmpTable.SweptKeepsRange | ppp/app/client/VEthernetNetworkSwitcher.cpp:93-105 | a sweep keeps ids in range and never grows the table |
| UriAuxiliary.Normalize | ppp/auxiliary/UriAuxiliary.cpp:35 | the normalised URL is no longer than the input, holds no upper-case letter, and neither starts nor ends with whitespace |
| UriAuxiliary.FindFrom | ppp/auxiliary/UriAuxiliary.cpp:41-43 | the first occurrence of the pattern at or after the start position, or none when there is none |
| UriAuxiliary.FirstIndexOf | ppp/auxiliary/UriAuxiliary.cpp:87 | the index of the first occurrence of the character, or none when it does not occur |
| UriAuxiliary.LastIndexOf | ppp/auxiliary/UriAuxiliary.cpp:103 | the index of the last occurrence of the character, or none when it does not occur |
| UriAuxiliary.SplitScheme | ppp/auxiliary/UriAuxiliary.cpp:40-59 | the rest is non-empty and a suffix of the URL; fails when neither "://" nor ":/" occurs |
| UriAuxiliary.SchemeSeparator | ppp/auxiliary/UriAuxiliary.cpp:40-59 | the URL is cut at the first "://", and at the first ":/" only when there is no "://"; the scheme is what precedes the cut and the rest what follows the separator; it fails exactly when nothing follows the separator or neither occurs |
| UriAuxiliary.SchemeProtocol | ppp/auxiliary/UriAuxiliary.cpp:64-85 | a protocol exactly for an accepted scheme: tcp and ppp give the native protocol, wss WebSocket over TLS, ws WebSocket, https HTTPS and http HTTP |
| UriAuxiliary.HostPathParts | ppp/auxiliary/UriAuxiliary.cpp:87-99 | the host is the longest prefix of the host part without a '/'; the path is '/' and what follows that '/', or empty when the URL ends right after it, or "/" without a '/' |
| UriAuxiliary.ExtractBracketed | ppp/auxiliary/UriAuxiliary.cpp:101-111 | fails exactly when a '[' has no ']' after it |
| UriAuxiliary.BracketedParts | ppp/auxiliary/UriAuxiliary.cpp:101-111 | without a '[' the host is kept whole with no address; otherwise the address lies between the first '[' and the last ']', and the host is what surrounds them |
| UriAuxiliary.SplitPort | ppp/auxiliary/UriAuxiliary.cpp:113-125 | fails exactly when the host part ends in ':' |
| UriAuxiliary.PortParts | ppp/auxiliary/UriAuxiliary.cpp:113-125 | without a ':' the port is 0 and the host is kept; otherwise the host is what precedes the last ':' and the port is `atoi` of the trimmed rest |
| UriAuxiliary.EffectivePort | ppp/auxiliary/UriAuxiliary.cpp:129-139 | a port in (0, 65535] is kept; otherwise 80 for http and ws, 443 for https and wss, and failure for tcp and ppp |
| UriAuxiliary.DecomposeHost | ppp/auxiliary/UriAuxiliary.cpp:87-128 | the components keep the scheme, the protocol and the host-and-path part they were split from |
| UriAuxiliary.DecomposedFrom | ppp/auxiliary/UriAuxiliary.cpp:87-128 | succeeds exactly when the bracket and port stages do; the host name is the trimmed host left by the port stage, the bracketed address and the port come from those stages, and the path is the trimmed path |
| UriAuxiliary.Decompose | ppp/auxiliary/UriAuxiliary.cpp:31-128 | success needs a non-empty URL with a scheme separator; the protocol is the scheme's; an unknown scheme fails |
| UriAuxiliary.Parse | ppp/auxiliary/UriAuxiliary.cpp:14-172 | a failure leaves the out-parameters at their defaults; a success has a port in (0, 65535] |
| UriAuxiliary.Assemble | ppp/auxiliary/UriAuxiliary.cpp:129-171 | fails exactly when no port applies; on success it gives the effective port, the scheme's protocol, and the resolved address or else the bracketed one |
| UriAuxiliary.SchemeCheck | ppp/auxiliary/UriAuxiliary.cpp:64-85 | a successful parse had an accepted scheme, and its protocol is that scheme's |
| UriAuxiliary.SchemeRefused | ppp/auxiliary/UriAuxiliary.cpp:83-85 | a URL whose scheme is not accepted fails |
| UriAuxiliary.DefaultPorts | ppp/auxiliary/UriAuxiliary.cpp:129-139 | a valid port is kept; an invalid one becomes 80 or 443 by protocol, and tcp or ppp without a valid port fail |
| UriAuxiliary.MalformedHost | ppp/auxiliary/UriAuxiliary.cpp:101-125 | a host part with a '[' and no ']' after it is refused, and so is every host part ending in ':', bracketed or not |
| UriAuxiliary.NormalizedEnd | ppp/auxiliary/UriAuxiliary.cpp:35 | the normalised URL does not end in whitespace |
| UriAuxiliary.PathAfterFirstSlash | ppp/auxiliary/UriAuxiliary.cpp:87-99 | the trimmed path is "/" followed by everything after the first '/', or "/" when there is none |
| UriAuxiliary.SlashPath | ppp/auxiliary/UriAuxiliary.cpp:87-99 | that path starts with '/' and its tail is a suffix of the host part |
| UriAuxiliary.LowerCaseParts | ppp/auxiliary/UriAuxiliary.cpp:87-128 | the host name and the path hold no upper-case letter when the host part holds none |
| UriAuxiliary.CanonicalParts | ppp/auxiliary/UriAuxiliary.cpp:87-128 | on a normalised URL, the path is the slash path of the host part, and the host name and path are lower-case |
| UriAuxiliary.CanonicalPath | ppp/auxiliary/UriAuxiliary.cpp:87-99 | on a URL not ending in whitespace, the path of a successful split is the slash path of the host part |
| UriAuxiliary.CanonicalResult | ppp/auxiliary/UriAuxiliary.cpp:166-171 | a successful parse returns scheme "://" host ":" port path, with a lower-case host name and path |
| UriAuxiliary.EncodedByte | ppp/auxiliary/UriAuxiliary.cpp:178-188 | a byte is encoded in one character, or in three when it is escaped |
| UriAuxiliary.Decoded | ppp/auxiliary/UriAuxiliary.cpp:193-214 | decoding never lengthens the input |
| UriAuxiliary.EncodedLength | ppp/auxiliary/UriAuxiliary.cpp:175-191 | the encoding is as long as the input plus two for every escaped byte |
| UriAuxiliary.EncodedAlphabet | ppp/auxiliary/UriAuxiliary.cpp:175-191 | the encoding holds only unreserved characters, '+' and '%' |
| UriAuxiliary.HexByteOfHex | ppp/auxiliary/UriAuxiliary.cpp:186-203 | the two hex digits written for a byte decode back to that byte |
| UriAuxiliary.DecodedEncodedPrefix | ppp/auxiliary/UriAuxiliary.cpp:175-214 | decoding an encoding followed by anything yields the original bytes first |
| UriAuxiliary.DecodeEncodeRoundTrip | ppp/auxiliary/UriAuxiliary.cpp:175-214 | `Decode` inverts `Encode` on every byte string |
| UriAuxiliary.DecodeStopsAtShortEscape | ppp/auxiliary/UriAuxiliary.cpp:199-207 | a '%' followed by fewer than two characters ends decoding, dropping it and the rest |
| UriAuxiliary.Encode | ppp/auxiliary/UriAuxiliary.cpp:175-191 | the loop produces the encoding `Encoded` of the whole input |
| UriAuxiliary.Decode | ppp/auxiliary/UriAuxiliary.cpp:193-214 | the loop produces the decoding `Decoded` of the whole input |
| NetworkSwitcher.AdmittedMembers | ppp/app/client/VEthernetNetworkSwitcher.cpp:1297-1327 | a server is admitted exactly when some entry of the interface's DNS list is an admissible v4 address naming it |
| NetworkSwitcher.DnsServersMembers | ppp/app/client/VEthernetNetworkSwitcher.cpp:1282-1330 | the collected set holds exactly the servers admitted from some interface |
| NetworkSwitcher.QosBandwidth | ppp/app/client/VEthernetNetworkSwitcher.cpp:408-416 | the bandwidth is the configured one when non-negative and 0 otherwise |
| NetworkSwitcher.TransportSuffix | ppp/app/client/VEthernetNetworkSwitcher.cpp:1156-1164 | the suffix starts with "ppp+" and has no '/'; it is ppp+tcp exactly for the native protocol, ppp+wss exactly for HTTPS and WebSocket over TLS, ppp+ws exactly for HTTP and WebSocket |
| NetworkSwitcher.RemoteUriParts | ppp/app/client/VEthernetNetworkSwitcher.cpp:1151-1164 | the server URI is the host name and ':', then a port that `atoi` reads back, then '/' and the transport suffix after the last '/' |
| NetworkSwitcher.DefaultRoutesSplit | ppp/app/client/VEthernetNetworkSwitcher.cpp:1174-1181 | three routes to the TAP gateway: every address falls in exactly one of the two /1 halves, and the last route covers every address |
| NetworkSwitcher.HostRouteCovers | ppp/app/client/VEthernetNetworkSwitcher.cpp:1183-1200 | a host route exists exactly for a v4 server and a v4 gateway; it leads to the gateway and covers the server's address and no other |
| NetworkSwitcher.ServerTableLayout | ppp/app/client/VEthernetNetworkSwitcher.cpp:1166-1203 | the server's table keeps the old RIB as its prefix, then the default routes when there is a TAP device, then the host route |
| NetworkSwitcher.GatewayFix | ppp/app/client/VEthernetNetworkSwitcher.cpp:986-1008 | the gateway repair asks only for gateway routes |
| NetworkSwitcher.RemovalsUndoInstalls | ppp/app/client/VEthernetNetworkSwitcher.cpp:1036-1117 | removing routes restores the default routes exactly when installing deleted them, deletes the RIB exactly when it was added, and deletes the DNS routes that were added |
| NetworkSwitcher.Disposals | ppp/app/client/VEthernetNetworkSwitcher.cpp:1444-1460 | a release disposes only of the HTTP proxy, the exchanger and the QoS module |
| NetworkSwitcher.ReleaseRestoresOnlyInstalled | ppp/app/client/VEthernetNetworkSwitcher.cpp:1443-1501 | a release restores the DNS configuration exactly when routes were installed, and a release with nothing open or installed does nothing |
| NetworkSwitcher.BypassNeedsAvailableFib | ppp/app/client/VEthernetNetworkSwitcher.cpp:916-926 | a bypass decision is only taken on a FIB that is available |
| NetworkSwitcher.Switcher.constructor | ppp/app/client/VEthernetNetworkSwitcher.cpp:56-62 | the counter starts at the given random value, QUIC is not blocked, and nothing is open, installed or parked |
| NetworkSwitcher.Switcher.OnTick | ppp/app/client/VEthernetNetworkSwitcher.cpp:78-112 | returns the base tick's answer; on success updates QoS and the exchanger when present and sweeps the expired echoes |
| NetworkSwitcher.Switcher.ExpiredIds | ppp/app/client/VEthernetNetworkSwitcher.cpp:93-101 | the collected ids are exactly the parked ids expiring at or before `now` |
| NetworkSwitcher.Switcher.RemoveIds | ppp/app/client/VEthernetNetworkSwitcher.cpp:103-105 | the table loses exactly the listed ids |
| NetworkSwitcher.Switcher.OnNativePacketInput | ppp/app/client/VEthernetNetworkSwitcher.cpp:114-152 | NAT happens exactly for a TCP, UDP or ICMP datagram on a virtual network, with an exchanger and a TAP, for another non-gateway host of the TAP subnet |
| NetworkSwitcher.Switcher.OnPacketInput | ppp/app/client/VEthernetNetworkSwitcher.cpp:154-164 | protocols other than UDP and ICMP are refused with nothing changed; UDP never touches the echo table |
| NetworkSwitcher.Switcher.OnUdpPacketInput | ppp/app/client/VEthernetNetworkSwitcher.cpp:166-196 | a parsed datagram with a payload is sent exactly when an exchanger is open and it is not blocked QUIC to port 80 or 443 |
| NetworkSwitcher.Switcher.IcmpPathOf | ppp/app/client/VEthernetNetworkSwitcher.cpp:284-317 | a datagram is dropped exactly without an exchanger, a TAP, a header or with TTL 0; it is parked exactly when for the gateway or at TTL 1; forwarding needs TTL 2 or more |
| NetworkSwitcher.Switcher.OnIcmpPacketInput | ppp/app/client/VEthernetNetworkSwitcher.cpp:284-317 | a dropped echo changes nothing; a parked one goes under the next ack id; a forwarded one goes to the exchanger with its TTL one lower |
| NetworkSwitcher.Switcher.EchoOtherServer | ppp/app/client/VEthernetNetworkSwitcher.cpp:319-330 | the datagram's bytes go to the exchanger when one is open |
| NetworkSwitcher.Switcher.EchoGatewayServer | ppp/app/client/VEthernetNetworkSwitcher.cpp:332-374 | the loop reaches the next free ack id; the echo stays parked under it exactly when the exchanger accepts; the counter keeps the id either way |
| NetworkSwitcher.Switcher.ReplyFor | ppp/app/client/VEthernetNetworkSwitcher.cpp:264-281 | with a TAP and a header: an Echo Reply with the lowered TTL for the gateway, otherwise a Time Exceeded from the gateway |
| NetworkSwitcher.Switcher.ERORTE | ppp/app/client/VEthernetNetworkSwitcher.cpp:214-282 | an unknown id or id 0 changes nothing; a known id leaves the table; its reply is sent exactly when there is one and it builds into an IP datagram (`ToIp`, lines 214-216 and 239-241) |
| NetworkSwitcher.Switcher.DatagramOutput | ppp/app/client/VEthernetNetworkSwitcher.cpp:443-470 | a datagram whose v4-mapped remote end is v4 goes out from that end to the local one; others are refused |
| NetworkSwitcher.Switcher.BlockQUIC | ppp/app/client/VEthernetNetworkSwitcher.cpp:776-785 | the flag takes the given value |
| NetworkSwitcher.Switcher.OnInformation | ppp/app/client/VEthernetNetworkSwitcher.cpp:472-496 | with an exchanger, the QoS bandwidth becomes 128 times the server's figure, and an invalid account disposes of the transmission |
| NetworkSwitcher.Switcher.IsBypassIpAddress | ppp/app/client/VEthernetNetworkSwitcher.cpp:1387-1440 | bypass exactly for a routable v4 address when the TAP is promiscuous and the FIB's next hop for it is not the TAP gateway |
| NetworkSwitcher.Switcher.AddLoadIPList | ppp/app/client/VEthernetNetworkSwitcher.cpp:1209-1242 | an existing file is queued by its full path; true exactly when it was not queued before |
| NetworkSwitcher.Switcher.LoadIpLists | ppp/app/client/VEthernetNetworkSwitcher.cpp:1256-1262 | one RIB entry per queued file with the next hop; `any` says whether some file loaded |
| NetworkSwitcher.Switcher.LoadAllIPListWithFilePaths | ppp/app/client/VEthernetNetworkSwitcher.cpp:1244-1274 | the RIB is rebuilt from the queue exactly when some file loads through a valid v4 gateway; the FIB and the queue are cleared |
| NetworkSwitcher.Switcher.AddRemoteEndPointToIPList | ppp/app/client/VEthernetNetworkSwitcher.cpp:1128-1203 | records the server and its URI, appends the default routes and the host route to a v4 server; true for a v6 server or when the host route is added |
| NetworkSwitcher.Switcher.CollectDnsServers | ppp/app/client/VEthernetNetworkSwitcher.cpp:1282-1330 | the loops collect exactly the admissible servers of the interfaces |
| NetworkSwitcher.Switcher.AddRouteWithDnsServers | ppp/app/client/VEthernetNetworkSwitcher.cpp:1276-1356 | collects the admissible servers of the tunnel and physical interfaces and routes them through the TAP gateway |
| NetworkSwitcher.Switcher.DeleteRouteWithDnsServers | ppp/app/client/VEthernetNetworkSwitcher.cpp:1358-1385 | removes those routes and forgets the servers |
| NetworkSwitcher.Switcher.FixUnderlyingNgw | ppp/app/client/VEthernetNetworkSwitcher.cpp:986-1008 | the gateway route is re-added exactly when the physical gateway is a usable v4 address |
| NetworkSwitcher.Switcher.AddRoute | ppp/app/client/VEthernetNetworkSwitcher.cpp:1036-1061 | the system is asked for `RouteInstalls`; default routes are saved exactly when a non-promiscuous TAP is bound |
| NetworkSwitcher.Switcher.DeleteRoute | ppp/app/client/VEthernetNetworkSwitcher.cpp:1096-1117 | the system is asked for `RouteRemovals`, and the DNS server set is emptied |
| NetworkSwitcher.Switcher.DisposeObjects | ppp/app/client/VEthernetNetworkSwitcher.cpp:1444-1460 | the open services are disposed of in order and all three are cleared |
| NetworkSwitcher.Switcher.RemoveInstalledRoutes | ppp/app/client/VEthernetNetworkSwitcher.cpp:1470-1486 | the flag is cleared; routes are removed and DNS restored only when it was set |
| NetworkSwitcher.Switcher.ReleaseAllObjects | ppp/app/client/VEthernetNetworkSwitcher.cpp:1443-1501 | the log grows by `ReleaseEffects`; every service and flag is cleared; the tables are kept in the constructor and reset outside it |
| NetworkSwitcher.Switcher.InstallRoutes | ppp/app/client/VEthernetNetworkSwitcher.cpp:928-955 | on a hosted network whose routes are not installed, sets the flag, installs the routes and sets the tunnel's DNS servers; otherwise nothing changes |
| NetworkSwitcher.Switcher.MountRoutes | ppp/app/client/VEthernetNetworkSwitcher.cpp:908-957 | a failure to add the server changes no flag or log; success records the server and its URI, leaves a RIB, adopts it as the FIB whenever it is available and keeps no other FIB, and installs routes as `InstallRoutes` |
| NetworkSwitcher.Switcher.OpenServices | ppp/app/client/VEthernetNetworkSwitcher.cpp:830-906 | success exactly when every step succeeds; failure disposes of what was opened, in the source's order, and mounts nothing |
| NetworkSwitcher.Switcher.Constructor | ppp/app/client/VEthernetNetworkSwitcher.cpp:826-958 | on success the services are open, the interfaces and the server URI recorded, routes installed exactly on a hosted network, and the RIB is the FIB whenever it is available |
| NetworkSwitcher.Switcher.Finalize | ppp/app/client/VEthernetNetworkSwitcher.cpp:394-398 | no echo stays parked and everything is released |

## Left out

- Windows and macOS branches: only the Linux build is modelled.
- Interface discovery, the TAP device's own opening and the route and DNS system calls. Their bodies are outside this model: the calls are entries of `log`, and what they find is an input (`Startup`).
- Byte layouts, checksums and `htonl`. IPv4 addresses are 32-bit values compared under one byte order.
- Collaborators whose code is not part of this model: `IcmpFrame::Parse`, `UdpFrame::Parse`, `IPFrame::ToArray`, `IPEndPoint::IsInvalid`, `IPAddressIsGatewayServer`, the RIB's `AddRoute` and `AddAllRoutesByIPList`, the FIB's `IsAvailable` and `GetNextHop`, `IcmpFrame::ToIp`, the `File` helpers and `Ipep::V6ToV4`. Each is a total function of `Platform`.
- StringAuxiliary is not part of this model. `ToHex` and `FromHex` are assumed to write upper-case digits and to read digits of either case.
- The clock, the random seed of the counter, and the answers of the exchanger and the TAP output are parameters.
- `ProtectorNetwork`, the tick event handler, statistics, the Paper-Airplane controller, the HTTP proxy's system settings and the cross-thread `Dispose` are left out. Allocation failures (`make_shared_object` returning null) are left out too.
- How the RIB and FIB store routes: the RIB is the sequence of additions made to it, and the FIB is that sequence when it is available.
- Host name resolution in `Parse` is left out. The resolved address is an input.
- `IcmpTable.AnyId` does not model the order in which `std::unordered_map` is walked. `ExpiredIds` states the collected ids as a set, not their order.
- NetworkSwitcher.Switcher.EchoGatewayServer: requires fewer than MaxAckId parked echoes; with a full table the source loops forever. The `ToArray` check (lines 337-340) and the `emplace` failure (lines 361-364) are not modelled; the latter cannot happen since the id is free.
- NetworkSwitcher.Switcher.OnIcmpPacketInput: carries the same requirement, for the echoes it parks.
- NetworkSwitcher.Switcher.OnPacketInput: carries the same requirement, for the ICMP echoes it parks. It states only the refusal and UDP cases; the ICMP and UDP details are the contracts of the methods it calls.
- NetworkSwitcher.Switcher.Constructor: states the open services and flags but not its log. The log is stated by `ReleaseAllObjects`, `OpenServices` and `MountRoutes`, which the source runs in that order in one function.
- NetworkSwitcher.Switcher.Finalize: states the cleared state, not the log of its release, which `ReleaseAllObjects` states.
- NetworkSwitcher.Switcher.MountRoutes: does not state the RIB's entries, on success or on failure. `LoadAllIPListWithFilePaths` states the entries it loads; `AddRemoteEndPointToIPList` and `ServerTableLayout` state the server's routes appended to them.
- `DisposeObjects`, `RemoveInstalledRoutes`, `OpenServices`, `MountRoutes` and `InstallRoutes` are parts of `ReleaseAllObjects` and `Constructor`. They are split out as methods of their own so that each proof stays small.
- `atoi` (UriAuxiliary.cpp line 122) is modelled as glibc computes it on a 64-bit target, `(int) strtol(s, NULL, 10)`. The value saturates at the range of `long` and is then cut to 32 bits, so "tcp://h:4294967376" has port 80. The C standard leaves an out-of-range `atoi` undefined, and other C libraries may differ.
- The facts that name the cut positions of `SplitScheme`, `SplitHostPath`, `ExtractBracketed`, `SplitPort` and `DecomposeHost` are stated by the lemmas beside them (`SchemeSeparator`, `HostPathParts`, `BracketedParts`, `PortParts`, `DecomposedFrom`), not by the functions' own contracts. This keeps the proofs that use those functions small.
- `UriAuxiliary.Parse`: the out-parameters `hostname`, `address` and `path` are returned together with the URL as one value instead of being written through references.
