# OpenNAN: a verified model

OpenNAN is a user-space Wi-Fi Aware (NAN) stack. Devices find a common anchor master and a common clock through beacons,
wake up together in discovery windows, and announce and find services in them. This project models that stack in Dafny
and proves what its parts promise, from the bytes on the air to the behaviour of a network over unbounded runs.

Code that changes things in place is modelled as classes and methods with the same fields, branches and loops, each proved
against a function on values; what the program is for is then proved about these functions.

| files | what they model |
|---|---|
| `MasterRank`, `Peers`, `Sync`, `SyncRuns`, `Election`, `Network` | master ranks, the state of one device, what holds over its runs, master election, and a network of devices that converges on the highest rank |
| `Devices`, `Reception` | a beacon from its bytes to the new state of the device, cluster and clock included; any frame from its first byte to what it does |
| `Crc32`, `Sha256Spec`, `Sha256Constants`, `Sha256Vector`, `Sha256` | the table-driven CRC-32 and the streaming SHA-256 against their definitions, what the CRC detects, and what the constants of SHA-256 are |
| `Wire`, `Frames`, `Tx`, `Attributes`, `Rx`, `RoundTrip`, `ReceivedBytes` | the cursor buffer, building and parsing of frames, the attribute loop, round trips, and which bytes are accepted and sent |
| `Timers`, `MovingAverages`, `Schedule` | discovery windows on a 64-bit clock, the average clock error, and when the window handlers run |
| `Services`, `Discovery`, `Transmit` | announcing, soliciting and finding services, received descriptors, follow-up frames |
| `Lists`, `PeerTables`, `CircularBuffers` | the linked list, the peer table on it, and the ring buffer |
| `Words` | machine integers with their wrap-around, little-endian numbers |

`dafny verify dfyconfig.toml` checks the whole project.

Conventions of the model: machine words are integers in their range with every wrap-around written out (bit-vectors in
`Crc32` and `Sha256`); the host is little-endian; memory that C leaves uninitialised is an arbitrary value or an input;
the current time, random numbers and the average signal strength are inputs; a null pointer that the program accepts is an
absent value.

## What was found

The code is modelled as it stands. Where it does not do what its comments, names or documentation say, what it does is
proved exactly:

- Expiry (`SyncRuns.AdoptedExpires`, `SyncRuns.AdoptedNeverExpires`): the anchor's beacon time is compared with the time of
  the anchor before, saved when this one was adopted, and not with that of the window before. An anchor that falls silent
  is given up only if these times are the same; one that a device adopts in its own place with a time other than 0 is kept
  for ever.
- Own anchor (`SyncRuns.SelfStepExactly`, `SyncRuns.EchoHappens`): an echo of an earlier, higher own rank makes a device its
  own anchor at a rank it no longer has.
- Hop counts (`SyncRuns.ZeroHopsWithoutBeingAnchor`, `SyncRuns.ZeroHopsHappen`): a refresh copies the peer's hop count
  without adding one, and the increment wraps at 255, so a device can show distance 0 to an anchor that it is not.
- Election (`Election.RepeatedElection`, `Election.TornHappens`): with some peers the role alternates for ever; a MASTER
  without enough candidates becomes SYNC.
- Window length (`Schedule.AfterFirstWindow`): 17 time units count as inside, and a first firing in the last of them leaves
  that window without its end handler.
- Discovery beacons (`Timers.NextBeaconWait`, `Schedule.BusyWithoutSending`): the wait is the time that has passed plus the
  interval and not the rest of it; a device that is not MASTER runs the handler again and again without any wait.
- Average error (`MovingAverages.WithinExactlyWhileFilling`, `MovingAverages.AverageLeavesSamples`): the average is bound to
  the samples exactly until the first one is overwritten, and can drift away from them without limit after that.
- Attribute loop (`Attributes.LoopAccepts`): some malformed endings of a frame are taken for its end.
- Long information (`RoundTrip.ExtensionRoundTrip`): from 256 bytes on the reader takes the first four bytes for an OUI and a
  protocol type that the writer did not write.
- Cleaning (`PeerTables.CutoffIsTimeout`): before the clock has passed the timeout, peers just heard are forgotten.
- Updating a published service (`Services.UpdateTakes`) exchanges the information at its old length, so the update is
  announced as it was given exactly if it has that length.
- Instance ids (`Services.IdsComeRound`) repeat after 255 services.
- FCS (`Frames.NoFrameChecksOnAir`): it covers the radiotap header, which is not sent on the air, and no frame ever passes the
  check without it. A receiver takes the FCS off without checking it (`Rx.ParseFcs`).

## Model

| member | source | states |
|---|---|---|
| MasterRank.IssuerIsPackedAddress | src/sync.c:26-52 | The issuer test accepts exactly the address that was packed, and that address is read back from the rank |
| MasterRank.PackOfFields | src/sync.c:9-37 | Every 64-bit value is the rank of the preference, factor and address in its bytes, so packing is onto |
| MasterRank.RankOrder | src/sync.c:26-37 | Ranks compare by preference, then random factor, then the address as a little-endian number |
| MasterRank.PackInjective | src/sync.c:26-37 | Equal ranks have equal preference, factor and address |
| Peers.Peer.SetMasterIndication | src/peer.c:97-104 | The old preference is kept beside the new one; nothing else changes |
| Peers.Peer.SetAnchorMasterInformation | src/peer.c:106-118 | The announced anchor; for hop count 0 the beacon time is the low half of the previous timestamp |
| Peers.Peer.SetBeaconInformation | src/peer.c:120-125 | The timestamp and the signal average; nothing else changes |
| Sync.SyncState.constructor | src/sync.c:70-91 | A device starts as MASTER and as its own anchor with preference and factor 0 |
| Sync.SyncState.SaveCurrentAnchorMaster | src/sync.c:192-196 | The anchor left behind and its beacon time, for the test for outdated news |
| Sync.SyncState.SetAnchorMasterOther | src/sync.c:198-204 | The peer's anchor is adopted at one hop more, modulo 256 |
| Sync.SyncState.SetAnchorMasterSelf | src/sync.c:206-212 | The device becomes its own anchor at distance 0 |
| Sync.SyncState.AnchorMasterSelection | src/sync.c:214-288 | The branches with their fall-through come to one of four decisions that a table on the state before the call gives |
| Sync.SyncState.CheckAnchorMasterExpiration | src/sync.c:290-321 | Both quiet counters and what three quiet windows lead to |
| Sync.SyncState.UpdateMasterRank | src/sync.c:323-350 | The new rank and what it does to an anchor that was the own rank or is now lower; true exactly if the rank changed |
| Sync.SyncState.UpdateMasterPreference | src/sync.c:352-377 | When factor and preference may be drawn again, and the rank that follows |
| Sync.SyncState.CheckMasterCandidate | src/sync.c:93-104 | A peer is a candidate if it has the same anchor and is nearer, or as near with a higher rank |
| Sync.SyncState.MasterElection | src/sync.c:106-190 | The two state tests on six counts elect the role; `Election.ElectedRole` says which role that is, peer by peer |
| Sync.SyncState.CountPeers | src/sync.c:108-153 | The loop counts, over the peers heard in the last 20 time units, the close ones, the higher ones and the candidates |
| SyncRuns.RankInvariant | src/sync.c:70-376 | In every run of beacons, preference updates, settings, elections and expiry checks the rank is the packing of preference, factor and address, and is never above the anchor rank |
| SyncRuns.RerankPacks | daemon/cmd.c:311-328 | Setting factor or preference by hand keeps both |
| SyncRuns.PreferencePacks | src/sync.c:352-376 | Drawing a new factor or preference keeps both and the address |
| SyncRuns.SelfInvariant | src/sync.c:198-288 | In every run without own ranks from the future the device is its own anchor exactly when the anchor rank is its rank, and then has beacon time 0 and hop count 0 |
| SyncRuns.SelfStep | src/sync.c:214-350 | Each event keeps this |
| SyncRuns.SelfStepExactly | src/sync.c:214-288 | A selection step keeps it if and only if it is not the case that another device is the anchor and a better rank of the device's own comes in that is not outdated |
| SyncRuns.SelectionFields | src/sync.c:192-288 | A selection step field by field, from ranks, issuers and times before it: a new anchor with its time at one hop more, a beaten one given up, a later time, and nothing else; what is saved |
| SyncRuns.AnchorFollowsRank | src/sync.c:323-350 | A new rank takes the own anchor along, up or down; another anchor is given up exactly if it is overtaken, and then saved |
| SyncRuns.DrawnAfterWindows | src/sync.c:352-377 | Another preference of a peer lets the factor be drawn more than 120 windows after the last new preference, and the preference become 200 after more than 240; otherwise nothing changes |
| SyncRuns.CandidateStandsBetter | src/sync.c:93-104 | Candidates are exactly the peers with the same anchor that come first by distance and then by rank |
| SyncRuns.EchoBreaksSelf | src/sync.c:242-256 | An echo of an earlier, higher own rank makes the device its own anchor at a rank it does not have |
| SyncRuns.EchoHappens | src/sync.c:242-256 | For all preferences low, between and high, a run from the start in which that happens: set high, set low, adopt another anchor, hear the echo |
| SyncRuns.AnchorFallsOnlyByItself | src/sync.c:258-277 | The anchor rank falls only on news from the anchor's issuer, and then to the maximum of that news and the own rank |
| SyncRuns.ZeroHopsWithoutBeingAnchor | src/sync.c:198-288 | Exactly when, in terms of ranks, issuers, times and hop counts before the step, a device shows hop count 0 to an anchor that is another device: the increment wraps at 255, or a later time from distance 0 is taken over with its distance, or the count was 0 before |
| SyncRuns.ZeroHopsHappen | src/sync.c:198-288 | Runs from the start in which both happen |
| SyncRuns.SilentAnchor | src/sync.c:290-321 | After any number of quiet windows the device has given up its anchor if and only if the saved time equals the anchor's and the counter, which wraps, has run out |
| SyncRuns.AdoptedExpires | src/sync.c:192-321 | An anchor that falls silent after it was adopted is given up after the windows left if and only if its time was that of the anchor before |
| SyncRuns.AdoptedNeverExpires | src/sync.c:192-321 | From the start: after one beacon of a better anchor with a time other than 0, that anchor is kept through any number of quiet windows |
| SyncRuns.DistanceRunsOut | src/sync.c:290-321 | While the anchor's time differs from the saved one the anchor is kept through any number of windows, and the distance becomes 255 in the window in which its counter runs out, exactly if it equals the saved one |
| Network.SelectionIsMax | src/sync.c:214-288 | Between devices with different addresses and fixed ranks a selection step sets the anchor rank to the maximum of old and received; the test for outdated news never prevents it |
| Network.DoInv | src/sync.c:192-288 | Every step of the network keeps: anchors are ranks of devices, no device has left a better anchor, no anchor falls |
| Network.RunInv | src/sync.c:192-288 | So does every run, with beacons delayed, repeated, reordered or lost |
| Network.ChangesArePaid | src/sync.c:214-288 | The number of changes of anchor in a run is at most the fall of a measure |
| Network.FewChanges | src/sync.c:214-288 | From the start, n devices change their anchors at most n(n-1)/2 times in all, however long they run |
| Network.RestIsAgreement | src/sync.c:214-288 | In a connected network nothing is left to learn if and only if all devices have the highest rank as their anchor |
| Network.HeardRaises | src/tx.c:36-47 | A device that hears a beacon ends up with an anchor not below the sender's when it was sent |
| Network.Convergence | src/sync.c:214-288 | After as many rounds in which every link carries a beacon as the network is wide, all devices agree on the highest rank |
| Election.SyncExactly | src/sync.c:169-189 | The elected role is SYNC exactly when there is no close candidate and fewer than three middle ones |
| Election.ElectedRole | src/sync.c:106-190 | Said of single peers, with their signal, rank and age: a MASTER with candidates stays one exactly if no peer above -60 dBm and no three above -75 dBm outrank it; another device with candidates becomes MASTER exactly if no peer is close and one outranks it; SYNC exactly without candidates |
| Election.OnlyRecentPeersMatter | src/sync.c:118-153 | Peers with the same multiset of recently heard ones give the same role |
| Election.RepeatedElection | src/sync.c:155-189 | A second election with the same peers changes the role exactly in the torn case, and then the role alternates |
| Election.TornMeans | src/sync.c:155-189 | The torn case is that the conditions for stepping down, for stepping up and for candidates all hold, which needs peers of all three kinds |
| Election.TornHappens | src/sync.c:155-189 | Any three peers with addresses of their own, in the middle range, with higher ranks and the same anchor and distance, make the role alternate |
| Election.RivalsExist | src/sync.c:106-190 | Every address whose rank is above the device's gives such a peer |
| Crc32.TableIsShift8 | src/crc32.c:4-48 | All 256 table entries are their index after eight zero bits through the register of polynomial 0xEDB88320 |
| Crc32.TableStepIsByte | src/crc32.c:55-57 | One lookup is eight steps of the bit-serial register |
| Crc32.ComputeCrc32 | src/crc32.c:50-59 | The loop computes the bit-serial reflected CRC of section 9.2.4.8 of IEEE Std 802.11-2016, for every byte sequence |
| Crc32.FeedInjective | src/crc32.c:50-59 | Every step is injective on register states, so different registers stay different |
| Crc32.Burst | src/crc32.c:50-59 | From one register, different bit strings of equal length up to 32 never meet |
| Crc32.BurstDetected | src/crc32.c:50-59 | Messages that differ only within four consecutive bytes have different checksums |
| Crc32.BurstInMessage | src/crc32.c:50-59 | The same, said of two messages as wholes |
| Crc32.CheckedMessage | src/crc32.c:50-59 | A message with four bytes behind it has checksum 0x2144DF1C if and only if they are its little-endian checksum |
| Crc32.UnseenPrefix | src/ieee80211.c:131-134 | A receiver that does not see the first bytes under a checksum finds it right if and only if those bytes leave the register as they found it |
| Sha256Spec.PadInjective | src/sha256.c:200-223 | Different messages below 2^61 bytes are padded differently |
| Sha256Spec.PadLength | src/sha256.c:200-223 | Padding fills whole blocks |
| Sha256Constants.EveryPrimeListed | src/sha256.c:27-44 | Every prime up to 311 is in the table of primes that the constants are stated with |
| Sha256Constants.EveryListedPrime | src/sha256.c:27-44 | Everything in it is a prime |
| Sha256Constants.PrimesIncrease | src/sha256.c:27-44 | In increasing order, so its entry t is the prime with exactly t primes below it |
| Sha256Constants.RoundConstantsAreRoots | src/sha256.c:27-44 | Section 4.2.2: round constant t is the first 32 bits of the fraction of the cube root of the t-th prime, for all 64 |
| Sha256Constants.OneCubeRoot | src/sha256.c:27-44 | There is one such root, so that says what each constant is |
| Sha256Constants.InitialIsRoots | src/sha256.c:170-177 | Section 5.3.3: the initial hash value is that of the square roots of the first eight primes |
| Sha256Vector.DigestOfVector | src/sha256.c:264-265 | The digest of the message abc, computed through padding, schedule, all rounds and output, is the one in the self test |
| Sha256.ScheduleStep | src/sha256.c:119-150 | The message schedule computed along with the rounds is that of section 6.2.2 of FIPS 180-4 |
| Sha256.RoundStep | src/sha256.c:63-150 | A round made of shifts is a round made of rotations |
| Sha256.WordAgrees | src/sha256.c:105-108 | Four bytes shifted together are the big-endian word |
| Sha256.LastBlock | src/sha256.c:119-162 | One more full block is compressed onto the value of the blocks before |
| Sha256.PadShape | src/sha256.c:200-223 | Where the padding comes to lie: one block if at most 55 bytes wait, otherwise two |
| Sha256.CounterBytes | src/sha256.c:111-223 | The two counter words are the halves of one 64-bit count |
| Sha256.Context.constructor | src/sha256.c:165-179 | Nothing has been hashed; the initial value of section 5.3.3 |
| Sha256.Context.AddBits | src/sha256.c:111-116 | The two words with their carry count modulo 2^64 |
| Sha256.Context.Hash | src/sha256.c:27-162 | One block is compressed as section 6.2.2 says, with the constants of `Sha256Constants` |
| Sha256.Context.Put | src/sha256.c:182-197 | One byte is appended to what has been hashed, across block boundaries |
| Sha256.Context.Update | src/sha256.c:182-197 | The data are appended to what has been hashed |
| Sha256.Context.PadBuffer | src/sha256.c:205-208 | A one bit and zeros up to the end of the buffer |
| Sha256.Context.Store | src/sha256.c:226-237 | The eight words, most significant byte first, and nothing behind them |
| Sha256.Context.Done | src/sha256.c:200-239 | The digest of everything hashed, in both padding cases |
| Sha256.DigestOfParts | src/sha256.c:165-249 | For every message and every split into calls the result is the FIPS 180-4 digest of the whole; `Sha256Constants` and `Sha256Vector` pin down that definition |
| Wire.Buf.Owned | src/wire.c:20-31 | A buffer of its own, empty |
| Wire.Buf.Const | src/wire.c:41-52 | A cursor over existing bytes |
| Wire.Buf.Advance | src/wire.c:101-110 | The cursor moves, or stays and the error is set |
| Wire.Buf.Take | src/wire.c:124-134 | The end moves toward the cursor, or the error is set |
| Wire.Buf.Write | src/wire.c:202-212 | The bytes are appended, or nothing is written and the error is set |
| Wire.Buf.WriteU8 | src/wire.c:155-158 | The same for a byte |
| Wire.Buf.WriteLe16 | src/wire.c:160-163 | The same for two bytes, least significant first |
| Wire.Buf.WriteLe32 | src/wire.c:170-173 | The same for four bytes |
| Wire.Buf.Read | src/wire.c:286-297 | The next bytes, or the target keeps what it held and the error is set; an error stays |
| Wire.Buf.ReadU8 | src/wire.c:225-228 | The same for a byte |
| Wire.Buf.ReadLe16 | src/wire.c:230-233 | The same for a little-endian number of two bytes |
| Wire.Buf.ReadLe32 | src/wire.c:240-243 | The same for four bytes |
| Wire.Buf.ReadLe64 | src/wire.c:250-253 | The same for eight bytes |
| Wire.Buf.ReadEtherAddr | src/wire.c:260-271 | The address is read and the cursor stays before it |
| Frames.ElementLength | src/tx.c:226-266 | The length byte of a beacon's vendor element counts exactly the bytes behind it up to the FCS |
| Frames.ResidueOfFrame | src/ieee80211.c:131-134 | The buffer with its FCS, radiotap header included, has checksum 0x2144DF1C, whatever was written |
| Frames.NoFrameChecksOnAir | src/ieee80211.c:131-134 | Of no frame with its FCS does the part behind the radiotap header, which is what goes on the air, pass the check; with the FCS over just that part every frame would |
| Frames.PrefixFits | src/tx.c:285-310 | The attributes of the first services need no more room than all |
| Tx.Ieee80211State.NextSequenceNumber | src/ieee80211.c:18-21 | The number before it is counted up |
| Tx.AddNanHeader | src/ieee80211.c:23-36 | The 802.11 header with the next sequence number |
| Tx.AddRadiotapHeader | src/ieee80211.c:43-73 | The header whose length and bit mask are filled in afterwards agree with its fields |
| Tx.AddFcs | src/ieee80211.c:131-134 | The checksum of everything from the start of the buffer, the radiotap header included |
| Tx.AddMasterIndicationAttribute | src/tx.c:24-34 | Attribute 0 with preference and factor |
| Tx.AddClusterAttribute | src/tx.c:36-47 | Attribute 1 with anchor rank, hop count and beacon time |
| Tx.AddServiceDescriptorAttribute | src/tx.c:70-100 | Attribute 3 with the length filled in afterwards; information goes in only if it is shorter than 256 bytes |
| Tx.AddServiceDescriptorExtensionAttribute | src/tx.c:102-132 | Attribute 14; the update indicator only of published services, the information only from 256 bytes on, without OUI and type |
| Tx.AddDeviceCapabilityAttribute | src/tx.c:134-149 | Attribute 15 with its constant bits |
| Tx.AddAvailabilityAttribute | src/tx.c:151-180 | Attribute 18 with its constant entry |
| Tx.AddBeaconHeader | src/tx.c:226-251 | Headers and the fixed part of a beacon, with the place of the element length |
| Tx.BuildBeaconFrame | src/tx.c:253-266 | The buffer holds the beacon of the given state, element length and FCS completed |
| Tx.AddServiceDiscoveryHeader | src/tx.c:268-283 | Headers and the fixed part of a service discovery frame |
| Tx.BuildServiceDiscoveryFrame | src/tx.c:285-310 | The buffer holds capability, availability and two attributes for each service, in order, and the FCS |
| Attributes.SplitOfEncoded | src/rx.c:234-256 | Splitting bytes into attributes undoes writing attributes one after another |
| Attributes.EncodedOfSplit | src/rx.c:234-256 | Every byte string is attributes and a rest that does not begin with a whole one |
| Attributes.LoopAccepts | src/rx.c:265-296 | The attribute loop returns RX_OK on exactly these byte strings: attributes that can be handled, then nothing, one byte, a header whose body is missing, or two bytes behind a body of length one |
| Attributes.LoopOnEncoded | src/rx.c:265-296 | On attributes and nothing else it handles just these |
| Rx.ParseMasterIndicationAttribute | src/rx.c:64-77 | The peer gets both bytes, or nothing if they are not there |
| Rx.ParseClusterAttribute | src/rx.c:87-103 | The peer gets rank, hop count and time, or nothing if they are not all there |
| Rx.ParseSda | src/rx.c:112-156 | The sticky-error parser accepts exactly the well-formed descriptors and returns their parts |
| Rx.ParseSdea | src/rx.c:165-200 | The same for extensions, with the length that wraps around below four |
| Rx.ReadNext | src/rx.c:243-256 | The next whole attribute, or an error that leaves a known number of bytes |
| Rx.IterateBeacon | src/rx.c:370-386 | The loop over a beacon's attributes, with its effect on the peer up to the first malformed one |
| Rx.IterateDiscovery | src/rx.c:462-482 | The loop over a service discovery frame's attributes, with the lists of descriptors and extensions |
| Rx.ParseBeaconHeader | src/rx.c:298-329 | Time and kind of exactly the beacons that `ReceivedBytes.BeaconsRecognized` describes, or which of three reasons there is to refuse |
| Rx.ParseFcs | src/ieee80211.c:122-129 | Four bytes are taken off if the flags say so; a frame flagged as bad is refused |
| Rx.Open | src/rx.c:553-584 | What nan_rx makes of a frame before its type: offset of the radiotap header, FCS, 802.11 header, own frames |
| ReceivedBytes.FramesOpened | src/rx.c:553-584 | Byte by byte, exactly which frames the receiver goes on with, what it sees of them, and with which result it refuses the others: short, flagged as wrong, its own |
| ReceivedBytes.BeaconsRecognized | src/rx.c:298-329 | A NAN beacon is exactly 18 bytes or more with 50 6f 9a 13 at byte 14 and interval 100 or 512; what its head says; the result for any other bytes |
| ReceivedBytes.BeaconAttributesRead | src/rx.c:64-103 | Attributes 0 and 1 byte by byte into the peer; short ones and all others change nothing |
| ReceivedBytes.DescriptorsRead | src/rx.c:112-156 | Every descriptor with bitmap, filters and information as its control byte announces is read as what it says, whatever follows |
| ReceivedBytes.DescriptorsOnly | src/rx.c:112-156 | Nothing else is read as a descriptor |
| ReceivedBytes.ExtensionStartsRead | src/rx.c:165-183 | Every extension with range limit and indicator as its control announces is read as what it says |
| ReceivedBytes.ExtensionStartsOnly | src/rx.c:165-183 | Nothing else is read as the start of an extension |
| ReceivedBytes.InformationRead | src/rx.c:183-200 | What follows it: none, information behind length, OUI and type, a length below four that wraps around, or an error |
| ReceivedBytes.DiscoveryAttributesRead | src/rx.c:462-477 | Attribute 3 is a descriptor, 14 an extension, all others are ignored |
| ReceivedBytes.ActionsRecognized | src/rx.c:500-551 | Which bytes are a service discovery frame, another action frame, or neither, and which name their sender |
| ReceivedBytes.RadiotapHeader | src/ieee80211.c:43-73 | The bytes of the radiotap header with and without FCS |
| ReceivedBytes.BeaconBytes | src/tx.c:226-266 | The bytes of every beacon behind the radiotap header |
| ReceivedBytes.DiscoveryBytes | src/tx.c:268-310 | The bytes of every service discovery frame up to its first descriptor |
| ReceivedBytes.AnnouncementBytes | src/tx.c:70-132 | The bytes of the two attributes of an announced service |
| ReceivedBytes.FollowUpBytes | src/tx.c:312-334 | The bytes of the attributes of a follow-up |
| RoundTrip.OpensFramed | src/rx.c:553-584 | The receiver finds the body that was put in, whatever headers and FCS came around it |
| RoundTrip.HeadOfBeacon | src/rx.c:298-329 | Time and kind come out of a beacon header as they went in |
| RoundTrip.BeaconHandled | src/rx.c:370-386 | Both attributes of a beacon are accepted and leave the peer as the sender announced |
| RoundTrip.BeaconRoundTrip | src/tx.c:226-266 | A beacon built from any state is accepted and yields time, kind, preference, factor, anchor rank and hop count of the sender, and its beacon time unless the hop count is 0 |
| RoundTrip.DescriptorRoundTrip | src/tx.c:70-100 | A descriptor with any information is parsed to what was written |
| RoundTrip.ExtensionRoundTrip | src/tx.c:102-132 | An extension is parsed to what was written, except that information of 256 bytes or more loses its first four bytes |
| RoundTrip.ServicesHandled | src/tx.c:292-304 | All attributes of a service discovery frame are accepted, two for each service |
| RoundTrip.DiscoveryRoundTrip | src/tx.c:285-310 | For every list of services whose frame fits, the frame yields exactly one descriptor for each service, in order, with id, instance, control type and information |
| RoundTrip.FollowUpRoundTrip | src/tx.c:312-334 | A follow-up yields one descriptor with the instance it is meant for |
| Timers.TimerState.constructor | src/timer.c:9-18 | The clock starts at its base time with the scan done and no error |
| Timers.TimerState.SyncTime | src/timer.c:45-53 | The base time moves by the difference, modulo 2^64 |
| Timers.TimerState.SyncError | src/timer.c:55-66 | An error of at most one interval becomes a sample, a larger one is dropped |
| Timers.TimerState.WarmupExpired | src/timer.c:130-138 | True once, after 120 seconds |
| Timers.NextDwLands | src/timer.c:114-120 | For every time, base and error, under 64-bit wrap-around: the wait ends in time unit 0 of an interval, less than one time unit late, and no moment before is in a later time unit 0 |
| Timers.DwEndWaits | src/timer.c:122-128 | The wait in all three cases; from time unit 16 it is a whole interval |
| Timers.DwEndLands | src/timer.c:122-128 | It is the shortest wait in whole time units that reaches time unit 16, and exactly which moments before it are in time unit 16 |
| Timers.SyncTimeHolds | src/timer.c:25-53 | After the clock was set, synced time is the received timestamp plus the time since, modulo 2^64 |
| Timers.ErrorCorrects | src/timer.c:35-66 | After one sample, corrected time is the sender's timestamp, if their difference is in the range of an int, and agrees with it in the low 32 bits in any case |
| Timers.ScanEnds | src/timer.c:145-154 | The initial scan lasts one second of synced time or until the first beacon |
| Timers.NextBeaconWait | src/timer.c:156-167 | The wait for a discovery beacon ends when one may be sent; it is the time to the first such moment if and only if no time has passed since the last |
| MovingAverages.MovingAverage.Add | src/moving_average.h:22-41 | The ring and the running average after one more sample are those of the whole history |
| MovingAverages.WithinWhileFilling | src/moving_average.h:29-32 | While the ring fills the average lies between the smallest and the largest sample |
| MovingAverages.DriftWhileFilling | src/moving_average.h:29-32 | How far n averages are from the sum of n samples |
| MovingAverages.Drift | src/moving_average.h:22-41 | After m further samples 32 times the average is off the sum of the ring by at most 496 + 31 m |
| MovingAverages.NoOverflow | src/timer.c:55-66 | With the samples that the clock lets through no intermediate value leaves an int for 2^30 samples |
| MovingAverages.WithinExactlyWhileFilling | src/moving_average.h:22-41 | For every number of samples: whatever they are, the average lies between their bounds if and only if the ring has not been overwritten |
| MovingAverages.HighStartAverage | src/moving_average.h:22-41 | Samples from 0 to 32 whose average is -1 from the 33rd on |
| MovingAverages.AverageLeavesSamples | src/moving_average.h:24-28 | The drift is real: for every bound there are samples from 0 to 992 whose average passes it |
| MovingAverages.ClimbRises | src/moving_average.h:24-28 | Such samples: a jump up counts and the steps down are dropped as remainders |
| Schedule.FireInWindow | daemon/core.c:176-203 | What a firing in the window arms, from every time unit that counts as inside |
| Schedule.Steady | daemon/core.c:176-216 | From a firing in time unit 0 on, window and end handler alternate for ever |
| Schedule.AfterFirstWindow | daemon/core.c:176-216 | The whole course after the first firing inside a window: the end handler of that window runs unless the firing was in time unit 16 |
| Schedule.AfterIdle | daemon/core.c:182-189 | A firing outside leads to the start of the next window |
| Schedule.RegularWindows | daemon/core.c:176-216 | Every later firing is in time unit 0, exactly one interval after the one before, with the end handler in time unit 16 between |
| Schedule.BeaconDue | daemon/core.c:120-134 | In microseconds, exactly when a beacon is sent and how long the handler then waits |
| Schedule.AtOnce | daemon/core.c:120-134 | The beacon handler asks to be run again at once if and only if a beacon is due that it may not send |
| Schedule.BusyWithoutSending | daemon/core.c:120-134 | A device that is not MASTER and past the interval runs the handler without any wait and without sending, for as long as it stays so |
| Schedule.RegularBeacons | daemon/core.c:120-134 | A MASTER sends in every run, and the runs are the beacon interval and the delays apart |
| Services.ServiceIdCreate | src/service.c:81-95 | The first six bytes of the SHA-256 digest of the name in lower case |
| Services.CaseDoesNotMatter | src/service.c:81-95 | What is hashed is the name without upper case, the same for two names exactly if they differ in nothing but the case of letters; such names have the same id |
| Services.IdOfName | src/service.c:81-95 | The id of the service ABC |
| Services.IdsComeRound | src/utils.c:138-145 | Two services get the same instance id if and only if their numbers differ by a multiple of 255 |
| Services.UnaskedAccount | src/service.c:215-267 | A service that needs no asking, with time to live N, is announced in exactly the first min(k, N) of k windows, in all if N is negative; announcements and remaining time to live add up to N |
| Services.SolicitedAccount | src/service.c:215-267 | A solicited service is announced exactly in the windows before which a subscribe came in, at most N times; announcements and remaining time to live add up to N |
| Services.OneWindowEach | src/service.c:298-310 | There is at most one such window for each subscribe |
| Services.SilentAccount | src/service.c:228-241 | A passive or answered subscribe is never announced |
| Services.StepConcerns | src/service.c:135-310 | What an event of the list is for one of its services |
| Services.EachIsAlone | src/service.c:135-310 | Through every run of publishing, cancelling, windows and subscribes, a service that is not cancelled goes as if it were alone and is announced as often |
| Services.ListedUnasked | src/service.c:215-267 | In every such run a listed service that needs no asking, with time to live N, is announced in exactly min(k, N) of the k windows, in all if N is negative; announcements and remaining time to live add up to N |
| Services.ListedSolicited | src/service.c:215-310 | A listed solicited service is announced in exactly the windows after a subscribe for it, at most N times and at most once for each subscribe |
| Services.ServiceState.ServiceNew | src/service.c:108-133 | A service with the next instance id and the id of its name; information of length 0 is none |
| Services.ServiceState.Publish | src/service.c:135-151 | The service is appended to the published ones |
| Services.ServiceState.Subscribe | src/service.c:182-199 | The service is appended to the subscribed ones |
| Services.ServiceState.CancelPublish | src/service.c:169-180 | Exactly if a published service has the id, the result is 0 and the first one with it is gone, all others being there in order; otherwise -1 and nothing changes |
| Services.ServiceState.CancelSubscribe | src/service.c:201-213 | The same for subscribed services |
| Services.ServiceState.UpdatePublish | src/service.c:153-167 | The first published service with the id, if there is one, has its information exchanged at its old length; what lies behind shorter information follows it; nothing else changes |
| Services.UpdateTakes | src/service.c:153-167 | An update is announced as it was given if and only if it is as long as the information before; what is announced otherwise |
| Services.AnnouncedInOrder | src/service.c:246-255 | A list is announced part by part, each service in its place |
| Services.ServiceState.GetServicesToAnnounce | src/service.c:246-255 | Published then subscribed services that are to be announced, in order, each once |
| Services.ServiceState.UpdateAnnouncedServices | src/service.c:257-267 | Each announced service loses one of its time to live and is no longer asked for |
| Services.ServiceState.Announce | daemon/core.c:151-174 | A window announces exactly the services it should and uses up exactly theirs |
| Services.ServiceState.HandleReceived | src/service.c:269-342 | Which service a descriptor changes or is reported to, and that nothing else changes |
| Services.ServiceState.GetServiceByInstanceId | src/service.c:37-53 | The first service with the instance id, subscribed ones before published ones; none exactly if no service has it |
| Discovery.RxAction | src/rx.c:500-551 | The tests on an action frame with the update of the peer table between them, and what its attributes come to |
| Discovery.DispatchAction | src/rx.c:530-550 | Service discovery, other action frames, and unknown ones |
| Discovery.RxServiceDiscovery | src/rx.c:450-498 | A frame with a malformed attribute reaches no service; otherwise every descriptor is handled in order |
| Discovery.SubscribeSolicits | src/service.c:298-310 | A subscribe among the descriptors leaves the first published service of its id asked for, whatever else is among them |
| Discovery.SubscriberIsAnswered | src/rx.c:450-498 | From the bytes that a subscriber sends: the receiver's first published service with a subscribed id will be announced in its next window if and only if its time to live is not used up |
| Discovery.PublisherIsFound | src/rx.c:450-498 | From the bytes that a publisher sends: the subscriber is told exactly the publisher's instance, its own first subscribe with that id, and the information unless it is too long |
| Discovery.FollowUpIsDelivered | src/service.c:312-342 | A follow-up is delivered exactly if it is sent to this device, to the first service with its id, subscribed ones first |
| Lists.List.constructor | src/list.c:26-29 | An empty list |
| Lists.List.Len | src/list.c:47-58 | The number of items |
| Lists.List.Add | src/list.c:60-71 | The item is appended |
| Lists.List.Remove | src/list.c:73-92 | The first occurrence is taken out, with the status whether there was one |
| Lists.ListIterator.constructor | src/list.c:94-100 | The iterator stands before the first item |
| Lists.ListIterator.Next | src/list.c:102-115 | The items in order, then not found |
| PeerTables.TableIsMap | src/peer.c:55-143 | Every run of adding, changing, removing and cleaning keeps addresses unique and does what the same run does to a map |
| PeerTables.AddKeeps | src/peer.c:63-95 | Adding is a map update |
| PeerTables.RemoveKeeps | src/peer.c:127-132 | Removing is a map removal |
| PeerTables.CleanKeeps | src/peer.c:134-143 | Cleaning is a map filter |
| PeerTables.ChangeKeeps | src/peer.c:97-125 | A setter changes one entry of the map |
| PeerTables.CutoffIsTimeout | src/peer.c:134-140 | Cleaning forgets exactly the peers heard longer ago than the timeout if and only if the clock has passed the timeout |
| PeerTables.CleanedInOrder | src/peer.c:134-143 | The table is cleaned part by part, each peer in its place and by itself |
| PeerTables.PeerTable.Get | src/peer.c:55-61 | The peer with the address, or missing |
| PeerTables.PeerTable.Add | src/peer.c:63-95 | A known peer is stamped and an unknown one appended; the callback is called exactly for a new one |
| PeerTables.PeerTable.Remove | src/peer.c:127-132 | The peer is taken out if it is there, and the callback called in any case |
| PeerTables.PeerTable.FindStale | src/list.h:73-85 | The first item that meets the condition |
| PeerTables.PeerTable.Clean | src/peer.c:134-143 | Terminates, keeps exactly the peers not too old, in order, and calls the callback once for each other one, in order |
| CircularBuffers.FirstInFirstOut | src/circular_buffer.c:54-109 | In every run without overriding, what was accepted has been handed out exactly once and in order or is still there |
| CircularBuffers.OverridesKeepNewest | src/circular_buffer.c:70-74 | Any number of overriding puts leaves the newest items up to the capacity; all count as accepted |
| CircularBuffers.PutsFill | src/circular_buffer.c:76-84 | Any number of puts adds the first items, as many as there is room for |
| CircularBuffers.GetsDrain | daemon/core.c:136-149 | Draining is a run of as many gets as there are items, so the laws over runs hold of it |
| CircularBuffers.CircularBuffer.Size | src/circular_buffer.c:54-63 | The length of the queue |
| CircularBuffers.CircularBuffer.Empty | src/circular_buffer.c:101-104 | Whether the queue is empty |
| CircularBuffers.CircularBuffer.Full | src/circular_buffer.c:106-109 | Whether the queue is at its capacity |
| CircularBuffers.CircularBuffer.AdvancePointer | src/circular_buffer.c:15-22 | Head, tail and flag after a put |
| CircularBuffers.CircularBuffer.PutOverride | src/circular_buffer.c:70-74 | The item is appended and the oldest dropped if there is no room |
| CircularBuffers.CircularBuffer.Put | src/circular_buffer.c:76-84 | The item is appended, or -1 and nothing changes |
| CircularBuffers.CircularBuffer.Get | src/circular_buffer.c:86-99 | The oldest item, which stays if it is only looked at |
| CircularBuffers.CircularBuffer.Drain | daemon/core.c:136-149 | Everything is handed out once, oldest first, and the buffer is empty |
| Transmit.BuildFollowUp | src/tx.c:326-334 | The frame with one descriptor and, for long information, an extension |
| Transmit.NanTransmit | src/tx.c:312-343 | If some service has the instance id, the frame in the name of the first such, subscribed ones first, is put into the bounded queue if there is room; otherwise -1 and the queue is as it was; the sequence number is used up unless no service has the id |
| Devices.GradesAreOrdered | src/cluster.c:20-27 | Cluster grades are a strict order, so devices do not join each other's clusters in a circle |
| Devices.HigherGradeWins | src/rx.c:410-428 | A device joins another cluster exactly if the sender's preference is higher, or as high with a time further in the interval, and then takes over its time; otherwise it stays |
| Devices.ClustersMerge | src/rx.c:410-428 | Of two devices in different clusters that hear each other at one moment exactly the one of lower grade moves, and then both have one cluster and one time; of equal grades neither does |
| Devices.OwnClusterClock | src/rx.c:429-445 | Beacons of the own cluster never move the device; a new anchor sets the clock, the same other anchor gives a sample, the own none, and discovery beacons do nothing to either |
| Devices.PeerAfterBeacon | src/rx.c:406-408 | What the entry of the sender is after its beacon |
| Devices.Device.FollowAnchor | src/rx.c:429-445 | Anchor master selection by a sync beacon, and what it does to the clock |
| Devices.Device.SendDiscoveryBeacon | daemon/core.c:120-134 | Whether a discovery beacon is sent, and the wait for the next run |
| Devices.Device.StateStep | src/rx.c:406-447 | The step behind the attributes: preference, candidate, cluster or anchor, and the clock, as `Devices.HigherGradeWins` and `Devices.OwnClusterClock` say |
| Devices.Device.RxBeacon | src/rx.c:331-448 | From the bytes of a beacon to result, peer table, synchronization state, cluster, clock and average error; bytes that are no NAN beacon change nothing |
| Devices.RefusedBeacon | src/rx.c:331-388 | A beacon that is not accepted changes nothing but the entry of its sender and the end of the initial scan |
| Devices.Device.WindowEnd | daemon/core.c:205-216 | At the end of a window the role is elected over the whole table and then expiry is checked |
| Devices.BeaconIsRun | src/rx.c:406-447 | A beacon makes one or two steps of the synchronization protocol and no others, so the invariants over runs hold of the device |
| Devices.ClockFollowsAnchor | src/rx.c:410-445 | The clock is set by exactly the beacons that change the anchor or join a cluster, and then runs on the sender's time |
| Devices.BytesAreReceive | src/rx.c:331-448 | The bytes that one device builds do to another what the network takes a received packet to do |
| Reception.FrameKinds | src/rx.c:586-600 | Which frame control fields reach which handler |
| Reception.TakeAction | src/rx.c:500-551 | An action frame changes only the peer table and the published services of the device |
| Reception.Dispatch | src/rx.c:586-601 | Beacons, action frames, and others, which change nothing |
| Reception.Receive | src/rx.c:553-601 | From the first byte of any frame to result, device, services and reports |
| Reception.SyncBeaconArrives | src/rx.c:331-601 | A sync beacon of the own cluster from a known peer, built by its sender and received as a frame, does what the network takes a received packet to do |

## Left out

- The iteration over a radiotap header on receipt: it is done by a library; its length and flags are inputs of `Rx.Open`.
- Peers.Peer.SetBeaconInformation: does not compute the average signal strength, which is the moving average over `signed char`; the new average is an input.
- Peers.Peer.constructor: the last anchor rank of a new peer is 0, where the program leaves it unset; it is only logged.
- Timers.TimerState.SyncError: an error of exactly -2^31, whose absolute value is undefined in C, and more than 2^30 samples, after which the average could overflow, are excluded; so they are in `Devices.Device.StateStep`.
- Services.ServiceState.UpdatePublish: the bytes behind shorter information are an input; that reading them may fail is not modelled.
- Services.ServiceState.HandleReceived: the report stands for the event and the call of its listeners.
- Tx.BuildServiceDiscoveryFrame: frames that do not fit the buffer of 65535 bytes are excluded, because headers are stored through pointers without a check.
- Network.Convergence: ranks stay as they are and no anchor expires during the rounds; changes of rank and expiry are covered for one device in `SyncRuns`.
- Schedule.AfterFirstWindow: timers expire on time, handlers take no time and the clock is not adjusted between firings; the beacon handler is modelled with delays.
- Re-arming of timers is modelled on values in `Schedule`; what the handlers do is in `Services.ServiceState.Announce`, `CircularBuffers.CircularBuffer.Drain`, `Devices.Device.WindowEnd` and `Devices.Device.SendDiscoveryBeacon`.
- Service lists are sequences of service objects in `Services`, not the linked list of `Lists`; descriptors of a frame are collected in sequences.
- Transmit.BuildFollowUp: information of more than 65000 bytes is excluded, so that the frame fits its buffer; so it is in `Transmit.NanTransmit`.
- pcap, TUN, netlink, libev, CoreWLAN, the command line and logging: foreign calls and user interface; only the effect of `set` on the rank is modelled.
- Data path and availability parsing (unfinished in the program), the service id list attribute (never sent), channel numbers and the IPv6 address made from a hardware address.
- Big-endian reads and writes, buf_resize and buf_strip: no frame needs them.
- Failing memory allocation, freeing of memory, and listeners that change their list during dispatch.
- The quality of random numbers: they are inputs.
