# Verified models of the home-network monitor

The repository is a FastAPI service that watches a home network. This project models the parts of it that keep
state or do arithmetic, and proves what they promise over every input and every run: the client of the router's
TMP protocol with its SPAKE2+ key exchange, the reconciliation of the device table with the Chester router, the
live event channel, two caches, the token server of the account link, and the event log of the service monitor.
Nothing was executed. Every row of the table under "Model" names a member whose contract the Dafny verifier checks
(`dafny verify dfyconfig.toml`); the sections before it describe the model and are not themselves proved, except where
they name a member.

## How it is laid out

| file | what it holds |
|---|---|
| `ModArith`, `Groups` | residues, inverses and primes; commutative groups given by function values, multiples and orders |
| `Curve`, `ScalarMul`, `ToyCurve` | `_ec_add` and `_ec_mul` over any prime field, their meaning, and a five-point curve that meets every hypothesis |
| `Spake2Plus` | `compute_share`, the transcript, the verifier of RFC 9383, `verify_share_response` and `authenticate` |
| `ByteStrings`, `Packets`, `TmpStream` | the three packet layers, the chunked byte stream and the request path |
| `Runs`, `DeviceTable`, `DeviceEvents`, `DeviceScanner` | the device table with its IP history, events and alerts, and `scan_and_update` |
| `ChesterNetwork`, `TextTools`, `ChesterText`, `ChesterRoundTrip`, `ChesterPatterns` | the router's snapshot, how a scan applies it, the parser of its text, and what its patterns accept |
| `SseHub` | bounded subscriber queues |
| `TopologyCache`, `ClientNodeMap` | the lock-protected cache shared by threads and the single-flight background build |
| `OAuth`, `ServiceLog` | the token stores with their sweep; samples and events of the service monitor |

Code that changes state is a class with methods (`Client`, `TmpClient`, `Transport`, `Repository`, `EventService`,
`NetworkDeviceService`, `Hub`, `Server`, `Monitor`), each method tied to a function of the old state; what the source
promises is proved about those functions. The two caches are step relations, because what matters there is how the
steps of several threads or requests interleave.

## What is assumed

- Curve addition is associative, and for SPAKE2+ the curve has odd prime order. Closure, commutativity, the identity,
  inverses and the exceptional case of `_ec_add` are proved, for any prime. `ToyCurve.HypothesesHold` and
  `ToyCurve.SettingIsValid` show that the hypotheses can be met.
- SHA-256, HMAC, HKDF, PBKDF2, AES-CCM and CRC-32 are function parameters. Of the cipher two facts are used: opening
  what was sealed gives it back, and sealing adds eight bytes. AES-CCM with the client's 13-byte nonce seals up to 65536
  bytes; `TmpStream.LimitedCipher` shows that such a cipher can exist. A request that does not fit goes out in plaintext,
  and reading it back needs that this one packet does not happen to open as a sealed one (`UnsealSeal`). Requests of up
  to 65518 bytes all fit and need nothing more (`FittingRequestsStayPlain`).
- The clock is positive and does not go backwards. Freshness of random strings is assumed only for tracing tokens.
- Clocks, random bytes, the PBKDF2 output, the answers of the router, the Deco and the device are parameters; any of
  a scan's sources may fail, also part-way through a list.

## Where the code and its description differ

- The key schedule of `compute_share` (`backend/tmp_client.py:434-467`) is the device's, not that of RFC 9383; only the
  group computation and the transcript are compared with section 3.3 of that standard, for cofactor 1.
- `compute_share` raises on a zero scalar, since it asks `_ec_mul` for the identity; `ProveCompletes` gives the exact
  condition.
- Section 3.3 of RFC 9383 has the prover check that the peer's share is an element of the group. `compute_share` checks
  only its first byte (`backend/tmp_client.py:384-390`), so it may complete on a share off the curve
  (`OffCurveShareCompletes`). Agreement and the exact conditions are stated for a share on the curve.
- No packet decoder checks its checksum (`TslpIgnoresChecksum`). A TMP payload of 65536 bytes or more is encoded
  without complaint and decoded cut to its length modulo 65536 (`TmpDecodes`).
- The service warns at start-up that the token endpoint rejects every request while no secret is configured
  (`backend/routes/oauth.py:28`), but it compares strings, so an empty secret equals an unset one
  (`UnsetSecretIsAccepted`). A token request is turned away as an unknown client if and only if its credentials differ
  from the configured ones, the empty secret included (`RejectedExactly`).
- `_merge_arp_and_dhcp` promises that a lease supplies the address where ARP has none
  (`backend/services/device_scanner.py:738`). The code fills in host names only (`HostnameMeaning`) and keeps the ARP
  entry's address, a missing one included (`MergedMeaning`).
- `_NEIGH_RE` takes any four numbers for an address (`AnyNumbersAreRead`), while `_apply_chester_snapshot` raises on one
  that `ipaddress` rejects. Applying a snapshot to its own result is idempotent if and only if every live router address
  parses (`AppliedTwice`); `SecondApplicationRaises` is the input on which it is not.
- `create_or_update` with a missing address drops the current one without recording it: `TrailKeptIffGiven` says that
  the history survives exactly when an address is given.
- A client-node-map request may still be answered with the empty default after a build succeeded, if it times out before
  the build's callback runs (`DefaultAfterUncachedSuccess`). `ServedPayloads` gives the exact condition: the default is
  served if and only if nothing has been cached yet.
- In the topology cache the two globals are written one after the other, so the time of a store is the one recorded
  with it, not the instant at which the cached value changed.
- A device first written by the Deco's client list gets no `new_device` event, and `connected` is recorded only for
  devices put in the online set without being written as present. A client whose name cannot be stored is written as
  present without entering the online set, so a scan can report it disconnected although it found it offline.
  `DueMeaning` states all this exactly.

## Model

| member | source | states |
|---|---|---|
| Curve.EcAddOnCurve | backend/tmp_client.py:257-267 | for any modulus, whenever `_ec_add` returns, its result is a reduced point of the curve, in the chord and in the doubling branch |
| Curve.EcAddRaises | backend/tmp_client.py:252-267 | for any prime, `_ec_add` raises (no modular inverse) if and only if the second point is the reflection of the first |
| Curve.AddIsIdentity | backend/tmp_client.py:257-267 | the completed sum is the identity if and only if the points are reflections of each other |
| Curve.AddCommutes | backend/tmp_client.py:257-267 | addition commutes, although the formulas treat the two points differently |
| ScalarMul.EcMul | backend/tmp_client.py:270-282 | the loop over the scalar's bits computes the recursive double-and-add, raising where one of its additions raises |
| ScalarMul.EcMulExact | backend/tmp_client.py:270-282 | for a point of odd order and any scalar, `_ec_mul` raises if and only if some low part of the scalar's binary form is a positive multiple of the order, and otherwise returns exactly the multiple |
| ScalarMul.EcMulIsMultiple | backend/tmp_client.py:270-282 | for every scalar below the order no addition or doubling, the last one included, is exceptional, and the result is k times the point |
| ToyCurve.HypothesesHold | backend/tmp_client.py:252-282 | the hypotheses on curve and point hold together for a concrete curve, so the results about `_ec_mul` are not empty |
| ToyCurve.SettingIsValid | backend/tmp_client.py:205-233 | so do the hypotheses of the key exchange, for a curve of prime order with three of its points |
| Spake2Plus.ProverPointsMeaning | backend/tmp_client.py:377-401 | for every valid peer share, the share is xG + w0M, the unmasked peer share is Y - w0N, Z and V are its multiples by x and w1, and exactly when any of it raises |
| Spake2Plus.SecretsAgree | backend/tmp_client.py:384-401 | masking and unmasking cancel: prover and verifier of section 3.3 of RFC 9383 reach the same Z and V |
| Spake2Plus.Agreement | backend/tmp_client.py:364-476 | with non-zero scalars and affine shares the client completes; its transcript is, byte for byte, the one section 3.3 of RFC 9383 lists, written out field by field with the verifier's own Z and V, and it holds the verifier's session key and both confirmations |
| Spake2Plus.ProveCompletes | backend/tmp_client.py:364-476 | for a valid peer share `compute_share` raises if and only if a scalar is zero or one of its two sums is the identity |
| Spake2Plus.CompletedRun | backend/tmp_client.py:403-476 | any completed run, whatever share it was given, sends the encoding of X and hashes label and nonces, two empty identities, M, N, X, the peer's share, Z, V and w0, each behind its length, in that order |
| Spake2Plus.ForeignShareRaises | backend/tmp_client.py:384-390 | an empty share or one of another point format makes `compute_share` raise |
| Spake2Plus.ScheduleMeaning | backend/tmp_client.py:434-467 | of the hash the first 16 bytes derive the confirmation keys and the rest is the session key; the first confirmation key signs the peer's share, the second the client's |
| Spake2Plus.PointLayout | backend/tmp_client.py:247-249 | an encoded point is a four and its two coordinates, x before y, most significant byte first |
| Spake2Plus.LenPrefixLayout | backend/tmp_client.py:411-412 | a field of the transcript stands behind its length in eight bytes, least significant first |
| Spake2Plus.LabelReads | backend/tmp_client.py:405 | the label of the transcript spells PAKE V1 |
| ByteStrings.FirstByteWeighsMost | backend/tmp_client.py:239-244 | numbers are read from bytes with the first byte weighing most |
| ByteStrings.LastByteWeighsMost | backend/tmp_client.py:411-412 | lengths with the last byte weighing most |
| Spake2Plus.ScalarReads | backend/tmp_client.py:374-378 | a scalar is the big-endian number in its bytes modulo the order |
| ToyCurve.OffCurveShareCompletes | backend/tmp_client.py:384-390 | a concrete share off the curve with which `compute_share` completes, since only the point's first byte is checked |
| Spake2Plus.TranscriptInjective | backend/tmp_client.py:403-432 | length-prefixed field lists are uniquely decodable: equal transcripts come from equal lists, whatever their lengths |
| Spake2Plus.TranscriptBinds | backend/tmp_client.py:403-432 | equal transcripts have equal nonces, shares, Z, V and w0 |
| Spake2Plus.Client.ComputeShare | backend/tmp_client.py:364-476 | the object's new secret, share, session key and expected confirmation; an exception leaves key and confirmation unchanged |
| Spake2Plus.Authenticate | backend/tmp_client.py:588-622 | for any answers of the device, error codes and foreign shares included, result, session key and flag follow from `compute_share` and the confirmation; against an honest device, login succeeds if and only if it sends its own confirmation, and both sides then hold the same session key |
| Packets.TslpIgnoresChecksum | backend/tmp_client.py:84-125 | the CRC splice changes no byte the TSLP decoder reads |
| Packets.TslpDecodes | backend/tmp_client.py:78-125 | what decoding any encoded packet gives: the packet with its channel name cut to eight bytes and stripped of trailing NULs |
| Packets.TslpRoundTrip | backend/tmp_client.py:78-125 | an encodable packet survives encoding and decoding if and only if its name fits the field |
| Packets.TmpDecodes | backend/tmp_client.py:140-181 | what decoding any encoded TMP data packet gives: the payload cut to its length modulo 65536 |
| Packets.TmpRoundTrip | backend/tmp_client.py:140-181 | a TMP packet survives if and only if its payload has fewer than 65536 bytes |
| Packets.AssociationForgets | backend/tmp_client.py:140-146 | an association packet is encoded in four bytes and survives if and only if it carries no payload, sequence or status |
| Packets.TslpLayout | backend/tmp_client.py:96-115 | the bytes of an encoded packet in order; its checksum is that of the packet with zeros in the checksum's place |
| Packets.TmpLayout | backend/tmp_client.py:140-163 | the same for the TMP packet, with 16 bits of length |
| Packets.BusinessRoundTrip | backend/tmp_client.py:184-200 | decoding an encoded business packet gives the packet |
| TmpStream.RecvTslp | backend/tmp_client.py:559-578 | however the transport cuts the stream, one call consumes exactly the first frame, and a stream that ends early raises |
| TmpStream.StreamRoundTrip | backend/tmp_client.py:559-578 | any list of packets read back from the concatenated bytes is the same list, and the bytes behind it are untouched |
| TmpStream.UnsealSeal | backend/tmp_client.py:643-666 | with both plaintext fallbacks, the reader recovers a packet if and only if the cipher seals it, or does not open it unsealed, or opens it to itself |
| TmpStream.NonceIsCounter | backend/tmp_client.py:645 | a 13-byte string is the nonce of a request if and only if its big-endian value is the request's counter |
| TmpStream.NoncesDiffer | backend/tmp_client.py:645 | no two counter values share a nonce |
| TmpStream.RequestTmpLayout | backend/tmp_client.py:637-640 | the bytes of a request's TMP packet: version 2.0, data, status 0, counter, business header 1, 0 and the payload |
| TmpStream.BusinessFrameLayout | backend/tmp_client.py:550-557 | the bytes of the frame around it: version 1, request, business channel named TMP, sequence number |
| TmpStream.ChannelReads | backend/tmp_client.py:648-653 | the channel's name spells TMP |
| TmpStream.SealedRequestIsSent | backend/tmp_client.py:643-651 | a request that is sealed goes out as that one frame; if the frame cannot be encoded or `sendall` fails, what was delivered of it is followed by the plaintext under one more sequence number |
| TmpStream.UnsealedRequestIsSent | backend/tmp_client.py:643-654 | a request that is not sealed is sent once, in plaintext |
| TmpStream.FittingRequestsStayPlain | backend/tmp_client.py:643-654 | under a cipher that seals exactly up to 65536 bytes, requests of up to 65518 bytes meet the condition on plaintexts of the next two results |
| TmpStream.RequestRoundTrip | backend/tmp_client.py:624-678 | a request's frame opens through all three layers to its payload, types, channel and counters, unless its packet cannot be sealed and yet opens as a sealed one |
| TmpStream.TmpClient.SendTslp | backend/tmp_client.py:550-557 | the sequence number moves on every call, and the bytes delivered are the encoded packet, nothing where encoding raises, or the part a failing `sendall` got through |
| TmpStream.TmpClient.SendRequest | backend/tmp_client.py:624-654 | bytes, both counters and the outcome of sending one request: nothing before login, and in every failure of encoding, sealing or `sendall` the second attempt in plaintext under one more sequence number that the exception handler makes |
| TmpStream.SendAll | backend/tmp_client.py:624-654 | on a working link consecutive requests put exactly their frames on the wire, with consecutive counters |
| TmpStream.Conversation | backend/tmp_client.py:550-678 | any list of requests, none of whose packets goes out in plaintext and yet opens as a sealed one, sent by one client and read in arbitrary pieces, arrives complete, in order, with consecutive sequence numbers, each frame's payload sealed under the 13-byte nonce whose value is the request's own counter wherever the cipher seals it |
| TmpStream.UncutLinkRoundTrip | backend/tmp_client.py:550-678 | however many sends of any requests fail, as long as each delivers its packet in full or not at all, the reader receives exactly the delivered frames, plaintext retries included |
| TmpStream.DeliveredFramesCarry | backend/tmp_client.py:624-678 | every frame so delivered, retries included, opens to the payload of its request, in the order of the requests, unless a plaintext opens as a sealed packet |
| TmpStream.CutFrame | backend/tmp_client.py:559-578 | a frame cut behind its header is read with the missing bytes taken from what is sent next, which gives the frame that was sent if and only if those bytes are the missing ones |
| DeviceTable.Repository.CreateOrUpdate | backend/db.py:168-222 | the whole new table: an existing row refreshed with its address recorded, or a new online row |
| DeviceTable.Repository.UpdateCurrentIp | backend/db.py:339-371 | the whole new table, and no write when the address is already current |
| DeviceTable.Repository.UpdateIpHistory | backend/services/search_service.py:112-174 | the whole new table, and whether anything changed |
| DeviceTable.TrailIsSquashed | backend/db.py:183-209 | for any row with an address and any interleaving of the three writers, history followed by current address is the earlier history followed by that address and all supplied ones with consecutive repeats removed |
| DeviceTable.EveryWriterExtendsTrail | backend/db.py:339-368 | each writer alone appends the address it is given to the trail exactly if it differs from the current one |
| DeviceTable.TrailKeptIffGiven | backend/db.py:197-209 | `create_or_update` keeps the recorded trail if and only if it is given an address |
| DeviceTable.PresentMeaning | backend/db.py:168-235 | a device written as present is online at the address given, keeps its reservation, and no other row changes |
| DeviceTable.WritersKeepTheRest | backend/db.py:168-235 | no writer of addresses touches a reservation, and only the scan's touches the status |
| ChesterText.ParseIpNeigh | backend/services/chester_network.py:94-115 | the loop yields the neighbors of the readable lines, in order |
| ChesterText.ParseDhcpLeases | backend/services/chester_network.py:118-130 | the loop yields the leases of the readable lines, in order |
| ChesterText.ParseUciHosts | backend/services/chester_network.py:133-147 | the dictionary of host sections and its usable reservations, in order of first appearance |
| ChesterText.ParseSnapshotOutput | backend/services/chester_network.py:150-168 | cutting the marked output into sections and parsing each gives the specified snapshot |
| ChesterRoundTrip.SnapshotRoundTrip | backend/services/chester_network.py:94-168 | parsing the tables as the router prints them, with its own markers and option names, gives the printed snapshot, whatever banner, unresolved rows, counters, upper-case addresses, other options and unusable hosts stand between |
| ChesterRoundTrip.ParserRange | backend/services/chester_network.py:94-168 | a snapshot is the parse of some text if and only if it is well formed |
| ChesterRoundTrip.ReparseIsStable | backend/services/chester_network.py:150-168 | for any text, printing its parse and parsing again changes nothing |
| ChesterRoundTrip.AnyNumbersAreRead | backend/services/chester_network.py:38 | the neighbor pattern takes any four numbers for an address, so some text is read to a row no address parser accepts |
| ChesterRoundTrip.OptionsAreRead | backend/services/chester_network.py:40 | the router's lines for a host's name, MAC and address are read as that option of that host |
| ChesterPatterns.FieldExactly | backend/services/chester_network.py:40 | a line is read as an option if and only if, stripped, it is that option of a numbered host |
| ChesterPatterns.OptionsMeaning | backend/services/chester_network.py:135-139 | each section some option mentions is read, each of its options with the value of the last line that sets it |
| ChesterPatterns.SectionOrder | backend/services/chester_network.py:135-146 | sections stand once each, in the order of first mention |
| ChesterPatterns.ReservationExactly | backend/services/chester_network.py:141-146 | a section is a reservation if and only if it has a MAC that matches in lower case and an address that matches; a missing name is empty |
| ChesterPatterns.MacExactly | backend/services/chester_network.py:36 | which strings match the MAC pattern |
| ChesterPatterns.LowerExactly | backend/services/chester_network.py:101 | printed addresses are put in lower case, letter by letter |
| ChesterPatterns.DottedExactly | backend/services/chester_network.py:38 | an address of the neighbor table is four numbers of any length with dots between |
| ChesterPatterns.Ipv4Exactly | backend/services/chester_network.py:37 | one of a lease or reservation has at most three digits in each |
| ChesterPatterns.UsedAgeExactly | backend/services/chester_network.py:39 | the age of a row is that of its first `used` with ages behind it |
| ChesterPatterns.MiddleExactly | backend/services/chester_network.py:39 | the age is the second of three numbers with slashes between |
| ChesterNetwork.OnlineNeighbors | backend/services/chester_network.py:72-84 | the dictionary holds, for each device with a live row, the first live row of least confirmed age, and nothing else |
| ChesterNetwork.HoldsBestUnique | backend/services/chester_network.py:72-84 | that condition leaves no choice: two dictionaries that meet it are equal |
| ChesterNetwork.OnlineExactly | backend/services/chester_network.py:72-84 | a device is online if and only if a row of it is reachable, delayed, probed, or stale and confirmed lately enough; its entry is such a row with no more recently confirmed one |
| ChesterNetwork.LastWinsMeaning | backend/services/chester_network.py:86-91 | in the hints every key carries the value of its last pair, so reservations win over leases and later rows over earlier |
| ChesterNetwork.ApplyChesterSnapshot | backend/services/device_scanner.py:584-610 | the two loops compute the view under the router's authority, or raise on an address that does not parse |
| ChesterNetwork.AppliedContents | backend/services/device_scanner.py:584-610 | the result holds exactly the router's live devices, with the router's addresses, and unchanged the merged entries whose address is missing or off the subnet; applying raises if and only if a merged address does not parse |
| ChesterNetwork.AppliedAddress | backend/services/device_scanner.py:584-610 | each live device carries the address of its first live row of least confirmed age |
| ChesterNetwork.AppliedTwice | backend/services/device_scanner.py:584-610 | applying the snapshot to the result of a first application gives that result again if and only if every live router address parses, and raises otherwise |
| ChesterNetwork.SecondApplicationRaises | backend/services/device_scanner.py:598-602 | a row with an address that is read but does not parse is applied once and makes the second application raise |
| ChesterNetwork.SyncIpsAndReservations | backend/services/device_scanner.py:612-632 | the whole table after the three loops, and no write if nothing changes |
| ChesterNetwork.MirroredMeaning | backend/services/device_scanner.py:612-632 | for any snapshot: with a reservation in it, a device is flagged exactly if it has one, at its last reservation's address; a device that is not live takes the address of its last reservation, else of its last unexpired lease; every other address and every status stays; a flag that is cleared loses its address; without reservations no flag moves |
| ChesterNetwork.ReservedIpsMeaning | backend/services/device_scanner.py:623 | the dictionary of reserved addresses holds each reserved device with the address of its last reservation, and is empty only without reservations |
| ChesterNetwork.SyncAgain | backend/services/device_scanner.py:612-632 | on a table that a run with the same snapshot and time has left, whatever it was before, a run changes no row and writes nothing |
| DeviceEvents.AttemptKeeps | backend/services/device_scanner.py:669-703 | recording an event, even where the store fails, keeps one `new_device` per device and no alert without its event or twice; on a store that does not fail, also no event that calls for an alert without it |
| DeviceEvents.ReliableInStep | backend/services/device_scanner.py:685-700 | on a store that does not fail the alerts are distinct, and one stands there if and only if it is the `new_device` alert of a `new_device` event or the `device_offline` alert of a `disconnected` one |
| DeviceScanner.MergedMeaning | backend/services/device_scanner.py:733-784 | a device is merged if and only if it has an ARP or lease entry; the last ARP entry decides the address, without one the first lease |
| DeviceScanner.HostnameMeaning | backend/services/device_scanner.py:759-770 | a host name that ARP gave stays, otherwise the first lease with one supplies it |
| DeviceScanner.ViewMeaning | backend/services/device_scanner.py:814-830 | the view of a scan is the merge alone or, with a snapshot, the live devices at the router's addresses and the merged entries off the subnet; which inputs make the scan stop before writing |
| DeviceScanner.MergeArpAndDhcp | backend/services/device_scanner.py:733-784 | the loops that update the dictionary in place compute that merge |
| DeviceScanner.NetworkDeviceService.PersistMerged | backend/services/device_scanner.py:841-879 | every device of the view is written as present, and exactly the unknown ones get a `new_device` event |
| DeviceScanner.NetworkDeviceService.DecoSupplement | backend/services/device_scanner.py:888-940 | the loop leaves the table and online set of the recursive specification, also where an entry raises, before or after its device was written |
| DeviceScanner.ClientsMeaning | backend/services/device_scanner.py:888-940 | the counted clients and at most one client whose name failed are written online, and no other row changes |
| DeviceScanner.ClientAddress | backend/services/device_scanner.py:888-940 | each device the loop writes has the address of the first entry that reports it, or the one already known where that entry has none |
| DeviceScanner.PresentMeaning | backend/services/device_scanner.py:888-940 | a client is counted if and only if the loop reaches an entry that reports it present and stores its name |
| DeviceScanner.HalfMeaning | backend/services/device_scanner.py:888-940 | a client is written without being counted if and only if its first entry is reached, its name fails and it was not known present before |
| DeviceScanner.OnlineSetMeaning | backend/services/device_scanner.py:814-1013 | the online set in terms of what the scan observed: merged view, counted clients, nodes of this or the last answer that had any, and the router |
| DeviceScanner.ScannedAddress | backend/services/device_scanner.py:841-1013 | the router's row has its own address; a live device, or any of the view without a snapshot, that of the merged view |
| DeviceScanner.ScannedReservations | backend/services/device_scanner.py:841-1013 | after a scan whose snapshot has reservations, a device the table knew or the view holds is static if and only if it has one, at the address of its last |
| DeviceScanner.NetworkDeviceService.DecoNodeSupplement | backend/services/device_scanner.py:948-992 | a non-empty node list replaces the remembered one, an empty one falls back on it, a malformed one adds nothing |
| DeviceScanner.NetworkDeviceService.RecordDeviceEvent | backend/services/device_scanner.py:669-703 | for any device and kind: one event and its alert, the event alone, or nothing, the last two only on a store that fails |
| DeviceScanner.NetworkDeviceService.Transitions | backend/services/device_scanner.py:1015-1054 | every status agrees with the online set afterwards, with exactly the events due; an empty set changes nothing |
| DeviceScanner.NetworkDeviceService.ScanAndUpdate | backend/services/device_scanner.py:786-1068 | the whole table after a scan, addresses included, the remembered node MACs and exactly the events due, whichever sources fail part-way; a failed scan changes nothing |
| DeviceScanner.ScannedMeaning | backend/services/device_scanner.py:1015-1054 | after a completed scan with a device in its online set, a device is online exactly if it is in that set; without one, no status moves except that of a client whose name could not be stored |
| DeviceScanner.DueMeaning | backend/services/device_scanner.py:847-1054 | which `new_device`, `disconnected` and `connected` events are due, in terms of the table the scan found |
| DeviceScanner.NetworkDeviceService.Run | backend/services/device_scanner.py:786-1068 | any run of scans, with any writes of the other writers in between, is a chain from the first table to the last, the log grows by exactly what the scans recorded, and each device is reported new at most once; on a store that does not fail there is exactly one alert for each `new_device` and each `disconnected` event of the log and no other |
| DeviceScanner.DisconnectionsSeparated | backend/services/device_scanner.py:1027-1054 | in the log of any run, two `disconnected` events of one device come from different scans; after the first scan and before the second reports, a completed scan strictly between them wrote the device as present or had it in its online set, or another writer set it online, or the device is the client whose name the second scan could not store |
| DeviceScanner.WritesKeep | backend/services/deco_service.py:45-68 | writes between scans lose no device and set online only those they mark or register |
| DeviceScanner.WriteMeaning | backend/services/deco_service.py:45-68 | what each kind of write between scans does to its row; no other row changes |
| SseHub.EveryRunDelivers | backend/routes/sse.py:17-70 | in every interleaving, what a subscriber received followed by what waits is a contiguous block of the log from its subscription on, all of it while subscribed; no queue exceeds 100 |
| SseHub.SubscribedExactly | backend/routes/sse.py:20-54 | in every interleaving, a subscriber is still published to if and only if it never disconnected and its queue was never full at a publication |
| SseHub.EverythingArrives | backend/routes/sse.py:38-54 | after any run, a connected subscriber still published to receives by taking what waits everything published since it subscribed, once and in order |
| SseHub.OthersDoNotMatter | backend/routes/sse.py:20-35 | a subscriber's fate is the same as if it were the only one |
| SseHub.FullMeaning | backend/routes/sse.py:24-35 | the list of subscribers to drop holds each full queue once and nothing else |
| SseHub.Hub.SubscribeClient | backend/routes/sse.py:57-70 | the new state after a subscription |
| SseHub.Hub.PublishEvent | backend/routes/sse.py:20-35 | offering to all and then removing the full ones is one publication of the protocol |
| SseHub.Hub.ConsumeNext | backend/routes/sse.py:38-54 | the oldest waiting message is delivered, once |
| SseHub.Hub.Close | backend/routes/sse.py:38-54 | the generator's cleanup, also for a subscriber that was already dropped |
| TopologyCache.OneFetchAtATime | backend/services/deco_client.py:828-938 | in every interleaving of threads and clock steps at most one fetch is in progress |
| TopologyCache.StoresApart | backend/services/deco_client.py:828-938 | successive stores record times at least the TTL apart |
| TopologyCache.AnswersAreFresh | backend/services/deco_client.py:828-938 | every cached answer's recorded store time lies less than the TTL before the time its caller read, despite the unlocked check and the two separate writes; an answer whose store time is not recorded yet is the newest fetch's, and the previous recorded time lies less than the TTL before |
| TopologyCache.FreshReaderAnswered | backend/services/deco_client.py:844-852 | a thread that finds a store less than 30 seconds old, before or under the lock, is answered with what the cache holds |
| TopologyCache.EveryFetchAnswered | backend/services/deco_client.py:918-921 | in every interleaving each successful fetch is returned uncached exactly once, by the thread that made it, in the order of the fetches |
| TopologyCache.EveryRunKeeps | backend/services/deco_client.py:29-34 | the invariant that relates the two globals, the lock and every thread's position holds in every reachable state |
| ClientNodeMap.OneBuildAtATime | backend/routes/deco.py:754-791 | in every interleaving at most one build is running |
| ClientNodeMap.SuccessIsCached | backend/routes/deco.py:647-657 | every success whose callback has run was cached, and the cache is not empty again |
| ClientNodeMap.ServedPayloads | backend/routes/deco.py:661-791 | every response carries the payload stored last before it, which a completed build made, or the empty default if and only if nothing had been cached |
| ClientNodeMap.ServedFresh | backend/routes/deco.py:737-791 | a response not marked degraded was stored less than 60 seconds before, at that very moment if not marked cached; a degraded one is marked cached and stale exactly if anything had been cached |
| ClientNodeMap.RequestExactly | backend/routes/deco.py:753-768 | in every reachable state a request is answered from the cache and starts nothing if something was stored less than 60 seconds ago; otherwise it waits for the running build, or starts one and waits for it |
| ClientNodeMap.ResumeExactly | backend/routes/deco.py:764-791 | a waiting request whose build succeeded stores and answers that payload; after a failure it is answered as on a time-out |
| ClientNodeMap.DefaultAfterUncachedSuccess | backend/routes/deco.py:754-791 | a concrete run in which a success alone does not rule the default out |
| OAuth.Server.AuthorizeClient | backend/routes/oauth.py:76-108 | response, redirect address and stores after a request for a code |
| OAuth.AuthorizedExactly | backend/routes/oauth.py:46-108 | a code is handed out if and only if the client is the configured one, asks for a code and names an address with an allowed prefix; then only that code is stored and the redirect carries it |
| OAuth.CodeLifetime | backend/routes/oauth.py:92-141 | a code presented next buys tokens exactly up to 300 seconds after it was issued |
| OAuth.CodeIsSpent | backend/routes/oauth.py:138-142 | a code presented with the right credentials is gone whatever the answer, and a refusal stores nothing |
| OAuth.RefreshLifetime | backend/routes/oauth.py:151-188 | a refresh token buys access tokens exactly up to a year after it was issued, and is not used up |
| OAuth.AccessLifetime | backend/routes/oauth.py:147-181 | an access token of either grant is stored with an expiry one hour later, and no other one changes |
| OAuth.Server.HandleToken | backend/routes/oauth.py:111-188 | response and stores after a received token request, from its body fields and Authorization header on, a header that does not decode included |
| OAuth.Server.IssueToken | backend/routes/oauth.py:134-188 | response and stores after a token request of either kind, given its credentials |
| OAuth.BasicHeaderDecides | backend/routes/oauth.py:126-132 | a well-formed Basic header alone decides the credentials; the secret may contain colons |
| OAuth.BodyDecides | backend/routes/oauth.py:121-132 | without a Basic header, or with one that has no colon, the body decides, a missing identity being the configured one and a missing secret empty |
| OAuth.UndecodedHeaderRaises | backend/routes/oauth.py:126-131 | a token request raises for its credentials if and only if its Basic header does not decode |
| OAuth.Server.ExpireEntries | backend/routes/oauth.py:56-68 | the stores after the background sweep |
| OAuth.SweepStore | backend/routes/oauth.py:56-68 | the sweep's loop removes exactly the entries that have expired |
| OAuth.SweepIsUnobservable | backend/routes/oauth.py:56-68 | with sweeps at arbitrary moments every request sequence is answered exactly as without them |
| OAuth.RejectedExactly | backend/routes/oauth.py:134-136 | a token request is answered as an unknown client if and only if its identity or secret differs from the configured one, as an unsupported grant if and only if it has the right ones and asks for another kind; neither changes anything |
| OAuth.UnsetSecretIsAccepted | backend/routes/oauth.py:23-28 | with no secret configured, a code handed out by the server buys tokens for a client that sends an empty secret in time |
| OAuth.CodeRedeemedOnce | backend/routes/oauth.py:138-164 | over any run, each code yields tokens at most once |
| OAuth.AccessTracesToOneCode | backend/routes/oauth.py:138-188 | every access token traces to exactly one code, directly or through the refresh token obtained for it |
| ServiceLog.Monitor.RecordServices | backend/services/local_service_monitor.py:118-138 | both tables after one snapshot and its pruning |
| ServiceLog.RetainedAgree | backend/services/local_service_monitor.py:118-138 | after any snapshots and prunings, a service with a retained sample and a retained event has the same status in the newest of both |
| ServiceLog.RetainsNewest | backend/services/local_service_monitor.py:136-137 | after any snapshots both tables hold exactly the newest rows ever inserted, as many as the retention allows |
| ServiceLog.EverySnapshotSampled | backend/services/local_service_monitor.py:118-135 | the rows ever inserted into the samples are every service of every snapshot, in order |
| ServiceLog.EventLogIsChain | backend/services/local_service_monitor.py:118-138 | for a service in every snapshot and enough retention, the complete event log is the repetition-free list of its sampled statuses, each old status chaining to the previous new one |

## Left out

- Sockets, TLS, HTTP sessions, SSH, subprocess scans, SQLite and migrations: the transport is a byte string cut anywhere, each table a map or a sequence; database errors outside the event store are not modelled.
- Strength, randomness and attack claims about the cryptographic functions, the concrete P-256, M and N constants, and the hand-written HKDF fallback (`backend/tmp_client.py:450-454`).
- Associativity of the curve law: a hypothesis.
- The receiving half of `_send_tmp_business` beyond opening a payload.
- TmpStream.CutFrame: a frame cut inside its header leaves a header mixed with the next one; what is read then is not described.
- TmpStream.SendAll: assumes a working link, on which no `sendall` fails; what a failing one does to a request is in `SendRequest`.
- Channel names as text: they are byte strings here, so UTF-8 errors do not occur.
- Digits other than ASCII and numbers of more than 4300 digits in the router's text; the regular expressions are modelled as the tests they amount to.
- Device identifiers, vendor, friendly names, time stamps and list order of the device table: rows are keyed by MAC address.
- ChesterNetwork.ApplyChesterSnapshot: works on values, so the sharing of an entry between the merged and the resulting dictionary is not captured.
- Two scans running at once, writers in the middle of a scan, and deletions of devices between scans.
- DeviceScanner.NetworkDeviceService.Run: that every due event is recorded and has its alert holds only while the event store does not fail; a failure of one call may lose an event or an alert, as in the code. Separation and uniqueness hold on any store.
- SseHub.Hub.SubscribeClient: a queue object is an identity that is never reused; keep-alive time-outs are not modelled, and each step is atomic as in the event loop.
- Cancellation of the background build itself, and the order of a late waiter's write-back and a newer build in `get_client_node_map`.
- OAuth.Server.AuthorizeClient: the encoding of code and state as a query string is a function parameter, and the stored redirect address, which no code reads, is dropped.
- OAuth.Server.HandleToken: which of form and JSON a body is, its parsing, and Base64 are not modelled; the body's fields and the decoding function are parameters.
- How `snapshot` builds and sorts the services of the monitor, `get_presence_history`, health score, digest, speed tests, MAC normalisers, the Alexa, Lambda, Alarm.com and HiBoost clients, topology drawing, settings and the front end: easier members or wrappers over code outside this model.
