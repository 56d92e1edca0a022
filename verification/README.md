# v2node: protocol stacks, user sync and hot reload

v2node is a proxy backend: it terminates several proxy protocols, keeps the set of users of each node in
step with a panel, limits and accounts their traffic, and reloads its configuration without dropping
anybody. This project models the stateful parts of it in Dafny and proves what they promise over all
inputs, all fragmentations and all runs.

- **The ShadowsocksR stack** (`XorShift`, `Padding`, `Incremental`, `AuthChain`, `AuthChainProofs`,
  `AuthChainFormat`, `AuthChainConn`, `AuthAes`, `AuthAesFormat`, `AuthAesConn`, `Stack`, `StreamCipher`, `IvLoss`, `TlsTicket`, `Wire`). auth_chain_a/b derives the length mask,
  the padding length and the payload offset of each frame from the HMAC of the previous one and a re-seeded
  XorShift128+ generator, and decodes incrementally from an accumulator. It lies on a stream cipher with a
  lazily sent IV, which lies on TLS records behind a fake handshake. Each layer is a class whose `Pending()`
  is everything its reader will still get; reads are proved to take from it exactly what they return.
- **Snell trial authentication** (`TrialOrder`, `TrialService`): the self-organising credential list, its
  cost over whole runs, and the rewindable connection.
- **Limiter and user sync** (`Format`, `LimiterModel`, `DeviceStability`, `LimiterRates`, `LimiterObject`, `UserDiff`,
  `LimiterRefinement`, `CoreUsers`, `SyncCycle`, `NodeController`, `Traffic`): the incremental user diff
  against a rebuild, drift repair, devices over whole runs, traffic conservation.
- **Framed transports** (`Sip004`, `ObfsTls`, `ShadowStream`).
- **Hot reload** (`Reload`): a state machine over the steps of the concurrent controller starts.

Code that updates objects in place is modelled by classes and loops, each tied by its contract to a
function of the old state; what the code promises is then proved about those functions. The peer in a round
trip is the repository's own decoder started from the mirrored chain state, and for simple-obfs the client
decoder of the repository's tests.

Parameters stand for what lies outside: HMAC, RC4, AES, the stream ciphers and the AEADs (as functions, with
only determinism, result length and, for the AEAD, that opening inverts sealing), key derivation, user
lookup, random numbers and bytes, the clock, and the answers of the panel, the core and the kernel in a sync
cycle. Bytes are integers from 0 to 255; 16-, 32- and 64-bit wrap-around
is written out where the code has it. Go's map iteration orders are arbitrary: where an order shows, the
contract names one that fits.

## Where the code and its description differ

- The comment on `CloseForReload` (node/controller.go:156-165) says that a surviving node is never without
  a limiter. The pruning compares old tags with the tag fields of the new controllers, and a controller
  whose user-list fetch failed has an empty one: its limiter is deleted although the node is still
  configured. `Reload.CompletedReload` gives the exact condition, `Reload.UnfetchedSurvivorIsPruned` a
  reachable state.
- `compareUserList` does not look at ids, so a uuid that moves to another id keeps the old one in the
  limiter: `LimiterRefinement.SyncRefinesRebuild` gives the exact condition,
  `LimiterRefinement.ReassignedIdIsMissed` the lists.
- Nor does the reconcile look at ids, which is described as repairing any drift between panel and core
  (node/task.go:252-258): `SyncCycle.ReconcileGivesIds` says exactly what it repairs,
  `SyncCycle.ReconcileMissesIds` is a node.
- An authenticated auth_aes128 frame whose payload offset lies past its end makes `decodeData` slice out of
  range (common/ssr/protocol.go:165-171). The model has that panic as the outcome `Crash`, after which
  nothing more is decoded. `AuthAes.CrashesIff` gives the exact condition over streams and fragmentations,
  `AuthAes.ShortFrameCrashes` nine bytes that any authenticated user can send.
- A record of unknown type that arrives after a part of the IV makes `io.ReadFull` throw that part away
  (common/ssr/stream.go:36-38), and a later read takes the IV from the wrong place. Whether this happens
  depends on how the bytes arrive: `IvLoss.LossIff` gives the exact condition,
  `IvLoss.LossDependsOnArrival` a stream with both outcomes.
- The loop of `writeData` (common/shadowflow/stream.go:355-393) is bounded only by the profile, and a
  profile may come from a file: a sample can leave it without progress, take a negative slice or panic in
  the random source. `ShadowStream.ProgressIff` gives the exact condition on the profile,
  `ShadowStream.SixBytesStandStill` a profile under which it never ends.
- `DelUsers` drops a user's counter with the bytes that no sweep has reported yet (core/user.go:169-173), and
  `DelNode` those of the whole tag (core/inbound.go:53): `Traffic.TrafficIsConserved` accounts for them,
  `Traffic.DeletionLosesTraffic` is a run. A report that fails is forgotten too (node/user.go:25-30),
  although AddBackTraffic is described as being called then (core/user.go:222-224).
- A connection keeps the counter it got when it was opened (core/app/dispatcher/default.go:232-250), and
  deletions do not close connections (core/user.go:66-69), so a user that is deleted and registered again
  moves bytes that nobody counts until it connects anew: `Traffic.StrayIff` says exactly when,
  `Traffic.ReregistrationGoesAstray` is a run.
- A reload that fails after the teardown leaves the node list empty, so the next reload has no old tags to
  prune: limiters of nodes that have left the configuration meanwhile stay for good
  (`Reload.FailedReloadAbandons`, `Reload.AbandonedForever`, `Reload.AbandonedIsReachable`).
- A reconcile with a refused deletion leaves the surplus users in the core and still drops them from the
  limiter: `SyncCycle.ReconcileRepairs` says exactly when it repairs,
  `SyncCycle.RefusedDeletionLeavesSurplus` is a node.

## Model

| member | source | states |
|---|---|---|
| `AuthChainConn.EndToEnd` | common/ssr/authchain.go:227-327 | For every run of writes through the auth layer, the stream cipher and the TLS records, every fragmentation of the wire and every way of cutting the tunnelled stream into reads, draining, deciphering and decoding in turn gives the IV, two zero bytes and exactly the written bytes, with no residue and no error, and both chains end mirrored again |
| `AuthChainConn.WrittenIsDelivered` | common/ssr/authchain.go:268-327 | Object to object: whatever a connection has written since its chain was `e`, a mirrored receiving connection that is sent those bytes in any fragments holds, as what its reads will return, two zero bytes and exactly the writes |
| `AuthChainConn.StackDelivers` | common/ssr/authchain.go:227-275 | The same for a receiver given the wire of a sending stack, with or without the fake handshake reply in front of it |
| `AuthChainProofs.ChainRoundTrip` | common/ssr/authchain.go:227-266 | auth_chain_a/b: decoding, in any fragments, what any number of Writes produced recovers every byte, the two-byte preamble exactly once, and leaves decoder and encoder mirrored in hash, packet id, keys and keystream position |
| `AuthChainProofs.WritesRoundTrip` | common/ssr/authchain.go:277-327 | The same for the whole output at once, by induction over the writes |
| `AuthChainProofs.WriteRoundTrip` | common/ssr/authchain.go:277-296 | One Write decodes to its bytes, preceded by two zero bytes if and only if it is the first of the connection |
| `AuthChainProofs.PackAllRoundTrip` | common/ssr/authchain.go:284-291 | The chunks of one Write decode to its bytes in order, whatever their number |
| `AuthChainProofs.FrameRoundTrip` | common/ssr/authchain.go:300-327 | One frame: the length mask, padding length, payload offset and HMAC that the decoder computes are those of the encoder, it consumes exactly the frame and yields its data, although the two generators carry different values |
| `AuthChainProofs.BodyShape` | common/ssr/authchain.go:300-324 | Where a frame has its masked length and its ciphertext, and that data and padding of a chunk stay below the 4096 limit of the decoder |
| `AuthChainFormat.HeaderAccepted` | common/ssr/authchain.go:180-225 | The header that a user's client sends, with its id masked by the hash of its first bytes, is accepted for that user, whatever follows: with its key and uuid, its session key, both chains at their start, ids 1 and 1, and the overhead of its block |
| `AuthChainFormat.HeaderAcceptedIff` | common/ssr/authchain.go:180-225 | A header is accepted if and only if it is that of some known user |
| `AuthChainFormat.HeaderErrors` | common/ssr/authchain.go:191-220 | Exactly when a header is rejected for its first MAC, for an unknown user, and for its second MAC |
| `AuthChainFormat.UplinkFromHeader` | common/ssr/authchain.go:158-266 | From the first byte: a header and then any number of writes, in any fragments, is decoded to exactly the writes, for the user of the header, and the ends stay mirrored |
| `AuthChainFormat.FormattedDecodes` | common/ssr/authchain.go:227-266 | Every frame in the format below the limit, with padding of any content, is decoded to its data, whatever follows; the next hash is its MAC |
| `AuthChainFormat.DecodedIsFormatted` | common/ssr/authchain.go:227-266 | Nothing else is decoded: what a step consumes has the masked length, each payload byte under its keystream byte at the offset, and the MAC under user key and packet id |
| `AuthChainFormat.DataErrors` | common/ssr/authchain.go:232-252 | Exactly when data is too long, incomplete, or fails its MAC; the check for negative lengths never fires |
| `AuthChainFormat.PackIsFormatted` | common/ssr/authchain.go:300-327 | What packOne writes is such a frame, with zeros for padding, and the chain goes on from its MAC |
| `AuthChainFormat.ChunkCount` | common/ssr/authchain.go:284-291 | A write takes one packet id for each 2800 bytes begun, and one keystream byte for each byte |
| `AuthChainProofs.DecodeIsStable` | common/ssr/authchain.go:158-266 | For every state and every byte string: a complete frame is not reinterpreted when more bytes follow, and an attempt repeated from the state that a short or rejected attempt left behind behaves like a first one |
| `AuthChainProofs.DataStable` | common/ssr/authchain.go:227-266 | The data part of that, including the re-seeded generator of a partial frame |
| `AuthChainProofs.HeaderStable` | common/ssr/authchain.go:180-225 | The header part, including the fields that a rejected header has already overwritten |
| `AuthChainProofs.WriteDownlink` | common/ssr/authchain.go:277-327 | What a Write sends does not depend on anything that reading changes |
| `AuthChainProofs.RunKeepsDownlink` | common/ssr/authchain.go:227-266 | Decoding any bytes leaves everything that writing depends on alone |
| `AuthChain.Rc4Involution` | common/ssr/authchain.go:258-261 | Keystream decryption at the same position inverts encryption |
| `Incremental.FragmentationIndependence` | common/ssr/authchain.go:158-178 | For every stable parser, plaintext, residue, state and error after any non-empty sequence of reads are those of one read of all bytes |
| `Incremental.RunAppend` | common/ssr/authchain.go:227-266 | Parsing what has come and then the rest is parsing all of it |
| `Padding.RandLenBounds` | common/ssr/authchain.go:109-156 | For every scheme, overhead, length, hash and generator: padding is never negative and data plus padding is at most max(length, 1470) |
| `Padding.PaddingA` | common/ssr/authchain.go:113-126 | auth_chain_a: the padding is the fifth output of the generator that the hash and the length seed, modulo 31, 127, 521 or 1021 by length, and none above 1440 |
| `Padding.PaddingB` | common/ssr/authchain.go:129-156 | auth_chain_b: length, overhead and padding are exactly the entry that the fifth output selects in the first list or the sixth in the second; behind both, which of no padding and the spread of the seventh output applies |
| `Padding.OffsetIs` | common/ssr/authchain.go:58-63 | The payload starts where the next output, modulo 8589934609 and the padding, says |
| `Padding.ListsAre` | common/ssr/authchain.go:91-102 | Which entries the two lists have: the outputs of the generator seeded with the key, in turn |
| `Padding.CarriedStateUnobserved` | common/ssr/authchain.go:47-63 | The generator value left over from the previous frame decides neither the padding length nor the payload offset, and drawing the length again changes nothing |
| `Padding.ListsAreWellFormed` | common/ssr/authchain.go:88-105 | Whatever the node key, both chain_b lists are sorted, below 1440, and have 4 to 11 and 8 to 23 entries |
| `Padding.SortSorts` | common/ssr/authchain.go:97-102 | Sorting yields an ascending permutation |
| `Padding.LowerBound` | common/ssr/authchain.go:134-139 | Everything before the returned index is below the wanted size and the entry at it, if any, is not |
| `Padding.Search` | common/ssr/authchain.go:134-139 | The binary search finds that index on every sorted list |
| `Padding.StartPos` | common/ssr/authchain.go:58-63 | The payload offset lies inside the padding |
| `Padding.BuildScheme` | common/ssr/authchain.go:88-105 | The construction loop builds the lists of the key for the salt auth_chain_b, and none for any other |
| `Padding.BuildLists` | common/ssr/authchain.go:91-102 | Both loops draw from one generator in turn |
| `Padding.DrawList` | common/ssr/authchain.go:94-96 | The countdown loop draws exactly the requested number of entries and leaves the generator after them |
| `Padding.GetRandLen` | common/ssr/authchain.go:109-127 | The method computes the padding length of the specification and leaves the generator in its state |
| `Padding.GetRandLenB` | common/ssr/authchain.go:129-156 | The same for the two-list form, which relies on sorted lists |
| `Padding.GetRandStartPos` | common/ssr/authchain.go:58-63 | The method computes the payload offset and draws only if there is padding |
| `XorShift.Generator.Next` | common/ssr/authchain.go:31-38 | In-place draw with 64-bit wrap-around, tied to the state-passing function |
| `XorShift.DrawBits` | common/ssr/authchain.go:31-38 | A draw bit by bit: the second word moves up, the new one mixes the first with its shifts by 23 and 17 and the second with its shift by 26, and the output is their sum |
| `XorShift.SeedIs` | common/ssr/authchain.go:40-45 | A short seed is filled with zeros and read little-endian |
| `XorShift.SeededIs` | common/ssr/authchain.go:47-56 | The seed of a frame is the hash with the length in its first two bytes, and four outputs are thrown away |
| `Octets.XorBits` | common/ssr/authchain.go:34-35 | The exclusive-or used throughout is that of the bits |
| `XorShift.Generator.InitFromBin` | common/ssr/authchain.go:40-45 | Seeding from at most sixteen bytes, zero-padded |
| `XorShift.Generator.InitFromBinAndLength` | common/ssr/authchain.go:47-56 | Seeding with the length over the first two bytes and four draws thrown away |
| `AuthChainConn.Conn.Read` | common/ssr/authchain.go:268-275 | For any fragmentation below, any buffer size above and any outcome, the bytes returned followed by the bytes still pending are the bytes that were pending, unless a part of the IV is lost (`IvLoss.LossIff`); an empty-handed read, but for a refused record, means that nothing decodable is left; a settled connection's write side is untouched |
| `AuthChainConn.Conn.Pump` | common/ssr/authchain.go:158-178 | One read from below loses and repeats nothing, but for a lost IV, and after an error or the end nothing more can ever be decoded |
| `AuthChainConn.Conn.DecodeHeader` | common/ssr/authchain.go:180-225 | The header is accepted, postponed or rejected with the fields the code has overwritten by then |
| `AuthChainConn.Conn.DecodeFrame` | common/ssr/authchain.go:228-263 | One turn of the loop is one step of the incremental decoder, in state, residue and output |
| `AuthChainConn.Conn.DecodeData` | common/ssr/authchain.go:227-266 | The in-place loop is exactly the run of the incremental decoder |
| `AuthChainConn.Conn.Write` | common/ssr/authchain.go:277-296 | The frames go down as one enciphered, wrapped write after a lazily sent IV; and if the connection has made some run of writes, it has afterwards made that run and this one (`Wrote`) |
| `AuthChainConn.Conn.PackOne` | common/ssr/authchain.go:300-327 | The in-place framing yields the specified frame and the next chain state |
| `AuthChainConn.Conn.PackMany` | common/ssr/authchain.go:284-291 | The chunking loop yields the frames of the recursive specification |
| `AuthChainConn.Conn.constructor` | common/ssr/authchain.go:88-105 | A new connection is fresh, with overhead 4 and empty buffers |
| `Stack.Through` | common/ssr/stream.go:56-89 | For every run of frames handed down, every fragmentation of the wire and every cutting into reads, the records give the IV and the reads after it give the frames |
| `Stack.SentSnoc` | common/ssr/stream.go:67-89 | One more write makes the wire what the longer run of writes would have sent, with the cipher history carried on |
| `Incremental.Quiescent` | common/ssr/authchain.go:158-178 | Once it has stopped, a decoder has nothing more to give without new bytes, and after an error not with them either |
| `AuthAes.AesRoundTrip` | common/ssr/protocol.go:145-217 | auth_aes128: in any fragments, decoding any run of Writes recovers every byte with recvID and packID in lockstep |
| `AuthAes.WritesRoundTrip` | common/ssr/protocol.go:145-217 | The same for the whole output at once |
| `AuthAes.FrameRoundTrip` | common/ssr/protocol.go:203-217 | A frame of up to 8000 bytes is at most 8009 long, is accepted, and decodes to its data |
| `AuthAesFormat.HeaderAccepted` | common/ssr/protocol.go:96-143 | The header that a user's client sends is accepted for that user and its first data delivered, whatever its random bytes and what follows |
| `AuthAesFormat.HeaderAcceptedIff` | common/ssr/protocol.go:96-143 | A header is accepted if and only if it is that of some known user with fitting lengths |
| `AuthAesFormat.HeaderErrors` | common/ssr/protocol.go:106-134 | Exactly when a header is postponed and for which of the five reasons it is rejected |
| `AuthAesFormat.UplinkFromHeader` | common/ssr/protocol.go:72-175 | From the first byte: a header with its data and then any number of writes, in any fragments, is decoded to exactly those, for the user of the header |
| `AuthAesFormat.DecodedIff` | common/ssr/protocol.go:145-175 | A step yields data if and only if the bytes are a frame of it: length and its MAC, a prefix that says how long it is, the data, and the MAC of it all |
| `AuthAesFormat.AnyPrefixDecodes` | common/ssr/protocol.go:165-171 | A frame built with a random prefix of any length, in the short or the long form, is decoded to its data |
| `AuthAesFormat.DataErrors` | common/ssr/protocol.go:152-163 | Exactly when data is incomplete and for which of the three reasons it is rejected |
| `AuthAesFormat.PackIsFormatted` | common/ssr/protocol.go:203-217 | What writeChunk writes is such a frame with a prefix of one byte |
| `AuthAesFormat.ChunkCount` | common/ssr/protocol.go:186-201 | A write becomes one frame for each 8000 bytes begun |
| `AuthAes.DecodeIsStable` | common/ssr/protocol.go:72-175 | Fragmentation does not matter for any byte stream, including one whose authenticated frame has its payload offset past its end, where the code panics |
| `AuthAes.CrashesIff` | common/ssr/protocol.go:145-175 | Decoding a stream, in whatever fragments, panics if and only if some number of whole frames is followed by a complete frame that passes both checks and has its payload offset past the end of its payload |
| `AuthAes.CrashStep` | common/ssr/protocol.go:151-171 | One turn of the loop panics if and only if such a frame stands at the front |
| `AuthAes.ShortFrameCrashes` | common/ssr/protocol.go:164-171 | Nine bytes that do it in every session past its header, whatever follows |
| `AuthAes.DecodedBeforePanic` | common/ssr/protocol.go:145-175 | A good frame and then such a one: decoded and lost with the panic if both are there at once, decoded without it if the first comes alone |
| `AuthAes.RunKeepsDownlink` | common/ssr/protocol.go:145-175 | Decoding any bytes leaves everything that writing depends on alone |
| `AuthAesConn.EndToEnd` | common/ssr/protocol.go:145-217 | For every run of writes through auth_aes128, the stream cipher and the TLS records, every fragmentation of the wire and every cutting into reads, the receiving side gets the IV and exactly the written bytes, with no residue and no error, and stays in lockstep |
| `AuthAesConn.WrittenIsDelivered` | common/ssr/protocol.go:177-217 | Object to object: what a connection has written is exactly what a connection in lockstep that is sent those bytes in any fragments still has to return |
| `AuthAesConn.Conn.Read` | common/ssr/protocol.go:177-184 | As for auth_chain: nothing is lost or repeated for any fragmentation, buffer size and outcome, unless a part of the IV is lost; an empty-handed read, but for a refused record, means that nothing decodable is left. A panic returns nothing, and what had been decoded before it in the same read is lost |
| `AuthAesConn.Conn.Pump` | common/ssr/protocol.go:72-92 | One read from below loses and repeats nothing, but for a lost IV, and after an error, a panic or the end nothing more can ever be decoded |
| `AuthAesConn.Conn.DecodeData` | common/ssr/protocol.go:145-175 | The in-place loop is exactly the run of the incremental decoder, the panic included |
| `AuthAesConn.Conn.DecodeHeader` | common/ssr/protocol.go:96-143 | The header is decoded, postponed or rejected without touching the state, and its payload is delivered |
| `AuthAesConn.Conn.DecodeFrame` | common/ssr/protocol.go:146-173 | One turn of the loop, with recvID advanced before the slice that may panic |
| `AuthAesConn.Conn.WriteChunk` | common/ssr/protocol.go:203-217 | One frame and the next packet id; the frame goes to the stream cipher on its own, so whatever frames had been handed down, they and this one have been afterwards |
| `AuthAesConn.Conn.Write` | common/ssr/protocol.go:186-201 | The chunks of at most 8000 bytes, in order, each handed down on its own; and if the connection has made some run of writes, it has afterwards made that run and this one (`Wrote`) |
| `AuthAesConn.Conn.constructor` | common/ssr/protocol.go:60-68 | packID starts at 1, the buffers are empty |
| `StreamCipher.DecipherWrites` | common/ssr/stream.go:67-89 | Deciphering the ciphertexts of any run of writes gives the writes, for every cipher whose pad depends on the IV and the ciphertext so far |
| `StreamCipher.DecipherReads` | common/ssr/stream.go:56-65 | How the ciphertext is cut into reads does not matter |
| `StreamCipher.DecipherEncipher` | common/ssr/stream.go:56-89 | Deciphering inverts enciphering after the same history |
| `StreamCipher.EncipherAt` | common/ssr/stream.go:84-88 | Each byte is enciphered with the pad for the ciphertext before it |
| `StreamCipher.Conn.InitRead` | common/ssr/stream.go:31-46 | The IV is the first bytes of the stream below, read in full or not at all; if the layer below refuses, what was pending there is still pending if and only if no part of the IV had been read, which is foreseen exactly (`LosesIV`) |
| `StreamCipher.Conn.Read` | common/ssr/stream.go:56-65 | Plaintext returned plus plaintext pending is plaintext pending before, for any buffer size and outcome, unless a part of the IV is lost |
| `StreamCipher.Conn.Write` | common/ssr/stream.go:67-89 | The IV goes out before the first write and never again; the cipher state advances by the ciphertext |
| `StreamCipher.Conn.constructor` | common/ssr/stream.go:26-28 | Neither direction has an IV yet |
| `IvLoss.LossIff` | common/ssr/stream.go:31-46 | A part of the IV is read and thrown away if and only if some arrival had delivered such a part and the next arrival completes a record of unknown type |
| `IvLoss.LossDependsOnArrival` | common/ssr/obfs.go:117-171 | One byte of an IV and then a record of unknown type: lost if they arrive one after the other, kept if they arrive together |
| `TlsTicket.WrapRoundTrip` | common/ssr/obfs.go:117-190 | Unwrapping inverts wrapping wherever the records stand in the stream, for writes of any size |
| `TlsTicket.WrapSize` | common/ssr/obfs.go:173-190 | Data goes out in records of 16384 bytes |
| `TlsTicket.RecordLayout` | common/ssr/obfs.go:182-185 | Type, version, length with the high byte first, data; the reader takes the length from the same place |
| `TlsTicket.DrainedRecord` | common/ssr/obfs.go:127-133 | Application data is payload, ChangeCipherSpec and handshake records are skipped, any other type stops the loop behind the record |
| `TlsTicket.RecordsStable` | common/ssr/obfs.go:117-136 | Late bytes never change records already complete |
| `TlsTicket.DrainedPayload` | common/ssr/obfs.go:117-136 | Draining loses no payload, whatever is still to come, and leaves no complete record unless it met an unknown type |
| `TlsTicket.ServerHelloInvisible` | common/ssr/obfs.go:78-115 | The whole handshake reply is three complete records without payload: a record reader that meets it sees only the stream behind it |
| `TlsTicket.HelloStable` | common/ssr/obfs.go:53-76 | More bytes do not change a verdict on the ClientHello |
| `TlsTicket.HelloIff` | common/ssr/obfs.go:53-76 | A hello is answered if and only if it is a whole ClientHello record with a session id of 32 bytes, which is the client id, and it is consumed whole |
| `TlsTicket.ReplyVerifies` | common/ssr/obfs.go:78-115 | The reply passes the client's checks: the MAC in the server random, the echoed session id, and the MAC of everything in the last ten bytes |
| `TlsTicket.Conn.DoHandshake` | common/ssr/obfs.go:53-76 | The hello is postponed, rejected or answered with the reply for its own client id; the tunnelled bytes pending do not change |
| `TlsTicket.Conn.Drain` | common/ssr/obfs.go:117-136 | Every complete record is consumed and no payload byte lost, also when an unknown type stops the loop |
| `TlsTicket.Conn.Read` | common/ssr/obfs.go:138-171 | Bytes returned plus bytes pending are bytes pending before, for all fragments, buffer sizes and outcomes; the outcome is that of the read as a function of what arrives; the end is reported only when nothing is left; after the handshake nothing is written |
| `TlsTicket.Conn.Write` | common/ssr/obfs.go:173-190 | Records of at most 16384 bytes, in order |
| `TlsTicket.Conn.constructor` | common/ssr/obfs.go:39-46 | Both buffers are empty and no hello has been sent |
| `TrialOrder.AheadWerePromotedSince` | common/snell/trial.go:125-158 | Over any run of promotions and updates after a user's own promotion, everyone ahead of it has been promoted since |
| `TrialOrder.AheadOverRun` | common/snell/trial.go:65-158 | Over any run that keeps a user, those ahead of it are among those ahead at the start and those promoted on the way |
| `TrialOrder.TrialsSinceLast` | common/snell/trial.go:125-158 | So its next connection costs at most one trial more than the number of distinct users promoted since |
| `TrialOrder.BurstBound` | common/snell/trial.go:125-158 | k consecutive connections of one of n users cost at most n + k - 1 trials |
| `TrialOrder.RunKeepsUnique` | common/snell/trial.go:65-158 | Uuids stay unique over every run of promotions and updates |
| `TrialOrder.PromotePermutes` | common/snell/trial.go:137-158 | A promotion permutes the list, keeps it unique and puts the user in front |
| `TrialOrder.UpdateServes` | common/snell/trial.go:65-89 | An update serves exactly the users of the credential set, each once, under their new keys |
| `TrialOrder.NewSetIs` | common/snell/trial.go:66-71 | The credential set has exactly the users with a non-empty key, and for each the last one given |
| `TrialOrder.UpdateServesPanel` | common/snell/trial.go:65-89 | After an update the list serves exactly the panel's users with a key, each once and under its last key |
| `TrialOrder.SurvivorsKeepOrder` | common/snell/trial.go:76-86 | For any two users that stay, which of them comes first does not change, whatever newcomers are appended |
| `TrialOrder.OutcomeIgnoresOrder` | common/snell/trial.go:93-123 | When at most one user's key accepts the stream, the same user is found in every order of the list |
| `TrialOrder.WinnerIs` | common/snell/trial.go:99-122 | A user is found if and only if some key accepts, and then one whose key does |
| `TrialService.Service.NewConnection` | common/snell/trial.go:93-123 | Every attempt sees the stream from byte 0; the winner is decided by what its key reads of the stream, independent of fragments and of earlier attempts; the handler then reads on with no byte lost or repeated; trials are counted and the winner is promoted |
| `TrialService.Service.Attempt` | common/snell/trial.go:100-119 | An attempt reads exactly what its service wants of the stream and leaves the rest readable and the whole replayable |
| `TrialService.RewindConn.Read` | common/snell/trial.go:198-211 | Returned plus remaining bytes are the bytes that remained, recorded or live; while recording, the whole stream stays available |
| `TrialService.RewindConn.Rewind` | common/snell/trial.go:214-216 | Everything read so far will be read again |
| `TrialService.RewindConn.Commit` | common/snell/trial.go:220-228 | Recording ends without changing a byte of what is still to be read |
| `TrialService.RewindConn.constructor` | common/snell/trial.go:194-196 | A new connection records and has nothing buffered |
| `TrialService.Service.Promote` | common/snell/trial.go:137-158 | The search and copy are the move to the front |
| `TrialService.Service.UpdateUsers` | common/snell/trial.go:65-89 | Survivors in their old order, then newcomers in some order; the list serves exactly the panel's users with a key, each under its last key |
| `LimiterRefinement.SyncRefinesRebuild` | node/user.go:112-134 | Applying the diff of two user lists to a limiter that matches the first makes it match the second if and only if every user that stays, listed once, kept its id |
| `LimiterRefinement.MatchesMeansRebuilt` | limiter/limiter.go:42-77 | A limiter matches a list if and only if it has the uid, speed-limit, device-limit and uuid tables that AddLimiter builds from it |
| `LimiterRefinement.BuiltMatches` | limiter/limiter.go:42-77 | A new limiter matches its list, duplicates included, has the given settings and alive counts, and no devices or buckets |
| `LimiterRefinement.ReassignedIdIsMissed` | node/user.go:118-127 | A list that only moves a uuid to another id: the diff is empty and the limiter keeps the old id |
| `LimiterRefinement.ScanAt` | node/user.go:118-131 | For each uuid: in which of the three results it is, for lists with duplicates too |
| `LimiterRefinement.SyncAt` | limiter/limiter.go:112-161 | The same per uuid: after an update its entry is the one the new list asks for, if and only if its id is stable |
| `UserDiff.CompareUserList` | node/user.go:112-134 | The two loops and the map deletions compute the diff; the deleted users are the values left over, in any order |
| `SyncCycle.LimiterFollowsList` | node/task.go:116-320 | At every point of every run of cycles, connections, throttles, sweeps and other nodes' doings, however many syncs, rebuilds and repairs failed, the limiter matches the current user list, as long as ids are stable |
| `SyncCycle.TrafficKeepsMatches` | limiter/limiter.go:188-302 | No connection, throttle, alive update or sweep disturbs the tables |
| `LimiterObject.Limiter.constructor` | limiter/limiter.go:42-77 | The loop builds the specified tables |
| `LimiterObject.Limiter.UpdateUser` | limiter/limiter.go:112-161 | Deletions, then modifications, then additions, in place |
| `LimiterObject.Limiter.UpdateAliveList` | limiter/limiter.go:96-102 | The alive list is replaced whole |
| `LimiterObject.Limiter.UpdateDynamicSpeedLimit` | limiter/limiter.go:177-186 | Only a known user is throttled |
| `DeviceStability.AcceptedStaysAccepted` | limiter/limiter.go:188-271 | An accepted device is accepted again whatever connections, alive-list updates, throttles and user updates interleave, until a sweep or its user's deletion |
| `DeviceStability.ReturningDeviceAccepted` | limiter/limiter.go:273-302 | An ip that a sweep saw for one uid only is accepted on that uid's first reconnection, even at the limit, whatever others have done since |
| `DeviceStability.DeviceLimitSafety` | limiter/limiter.go:217-257 | Within a cycle, while a user stays at its limit, its devices never leave those recorded at the start and those of the previous cycle |
| `DeviceStability.RejectionLeavesDevices` | limiter/limiter.go:237-254 | A rejection leaves both device tables exactly as they were |
| `DeviceStability.CheckEffect` | limiter/limiter.go:188-271 | A check rejects unknown users, and touches devices only if they are tracked |
| `LimiterRates.GrantedRate` | limiter/limiter.go:192-271 | A check of a user without a bucket grants the slowest of the node's, the user's and the throttle's rate that are set, in bytes per second, and remembers it; one with a bucket grants that |
| `LimiterRates.RejectedIff` | limiter/limiter.go:197-254 | Exactly when a connection is rejected |
| `LimiterRates.AdmittedIff` | limiter/limiter.go:217-257 | Exactly which devices are admitted and what becomes of both tables |
| `LimiterRates.ThrottleRunsOut` | limiter/limiter.go:201-213 | A throttle that has run out is cleared by the next check, and nothing else about any user is changed |
| `LimiterRates.ThrottleBites` | limiter/limiter.go:177-186 | While a throttle lasts, a user without a bucket gets no more than it allows |
| `LimiterRates.ThrottleEnds` | limiter/limiter.go:177-213 | A throttle set with an end is gone at the first check after it |
| `LimiterRates.ModifiedRate` | limiter/limiter.go:120-143 | A modified user's bucket is made for the slower of the two rates, or removed, and its throttle stays |
| `LimiterRates.MappedIsPlain` | limiter/limiter.go:189-190 | An IPv4 address counts as the same device in its IPv6-mapped form |
| `LimiterRates.DeletedIsForgotten` | limiter/limiter.go:113-119 | Nothing is left of a deleted user |
| `LimiterRates.AddedIsUnthrottled` | limiter/limiter.go:144-160 | A user that is added starts without a throttle |
| `LimiterObject.Limiter.CheckLimit` | limiter/limiter.go:188-271 | The in-place code computes the specified verdict and state |
| `LimiterObject.Limiter.AdmitDevice` | limiter/limiter.go:217-257 | Storing first and deleting on rejection restores the table exactly |
| `LimiterObject.Limiter.GetOnlineDevice` | limiter/limiter.go:273-302 | The report is exactly the recorded devices; the previous-cycle table has every recorded ip with a uid recorded for it; a new cycle begins |
| `Format.UserTagInjective` | common/format/user.go:7-9 | For tags without the separator, equal keys come from equal tag and uuid |
| `Format.SameTag` | common/format/user.go:7-9 | Under one tag, keys are equal exactly for equal uuids, and the uuid can be cut out again |
| `SyncCycle.DriftIsRepaired` | node/task.go:252-263 | From any contents of the core and any history, once additions and the reconcile's deletions are not refused, the registered users are exactly the list by the time five cycles have reached the safety net, and remain so, whatever panel, inbound, fast-path deletions, connections and the other nodes that share the core do in between |
| `SyncCycle.ReconcileRepairs` | node/task.go:359-398 | A reconcile makes the registered users exactly the list from any drift, if and only if no deletion of a surplus user was refused |
| `SyncCycle.ReconcileGivesIds` | node/task.go:359-398 | A reconcile registers missing users under their ids; it brings the core to the list, ids included, if and only if no deletion of a surplus user is refused and no listed user was registered under another id |
| `SyncCycle.ReconcileMissesIds` | node/task.go:364-369 | A user that the panel moved to another id: the reconcile sees no drift |
| `SyncCycle.ReconcileUpdatesLimiter` | node/task.go:396 | Every missing user gets its entry in the limiter and every surplus one loses its own, whatever the limiter had |
| `SyncCycle.CoreFollowsList` | node/task.go:116-320 | Over every run in which additions are not refused and ids are stable, the core has exactly the listed users, each under its id |
| `SyncCycle.SyncGivesIds` | node/task.go:219-247 | The fast path brings a core that has the old list to the new one, ids included, if and only if every user that stays kept its id |
| `SyncCycle.RebuildGivesIds` | node/task.go:149-163 | A rebuild registers every listed user under its id |
| `SyncCycle.PortRepairGivesIds` | node/task.go:290-306 | So does the repair of a lost listener |
| `SyncCycle.CycleAdoptsList` | node/task.go:211-250 | The panel's list is taken over if and only if the cycle gets through with one to compare |
| `SyncCycle.AliveReachesLimiter` | node/task.go:188-200 | The panel's device counts reach the limiter in every cycle that gets as far, whatever is refused afterwards; only those of users deleted in the cycle are dropped |
| `SyncCycle.RefusalStops` | node/task.go:220-243 | A refused deletion or addition leaves list and limiter as they were, but for the device counts, and a refused deletion the core too |
| `SyncCycle.FailedFetchChangesNothing` | node/task.go:117-186 | A cycle without the panel's answers changes nothing |
| `SyncCycle.RefusedDeletionLeavesSurplus` | node/task.go:382-396 | A node whose refused deletion leaves a user registered in the core and out of the limiter |
| `SyncCycle.ElsewhereKeepsSync` | core/user.go:51-63 | What other nodes register and delete in the shared core neither makes nor breaks the agreement |
| `SyncCycle.CycleSync` | node/task.go:202-263 | A cycle whose additions are not refused keeps the agreement of core and list; one that reconciles restores it |
| `SyncCycle.EveryFifthReconciles` | node/task.go:259-263 | Over every run, the number of reconciles is the number of cycles that reached the safety net divided by five, counted from the counter |
| `SyncCycle.AnyFiveReconcile` | node/task.go:259-263 | Any five cycles that reach the safety net include a reconcile |
| `SyncCycle.NeverEmptied` | node/task.go:211-218 | A non-empty user list never becomes empty, whatever the panel returns |
| `SyncCycle.DiffSets` | node/task.go:219-247 | Old users less the deleted plus the added are the new users |
| `NodeController.Controller.NodeInfoMonitor` | node/task.go:116-320 | The object's cycle, early returns included, is the specified step |
| `NodeController.Controller.ReconcileUsers` | node/task.go:359-398 | The object's reconcile is the specified one, with the surplus users in map order |
| `NodeController.Controller.Drift` | node/task.go:359-376 | Missing users in list order; surplus users by uuid only |
| `NodeController.Controller.RebuildInbound` | node/task.go:117-170 | The part of a cycle before the user list |
| `NodeController.Controller.SyncUserList` | node/task.go:172-250 | The fast-path sync, with the empty-list guard |
| `CoreUsers.Core.AddUsers` | core/user.go:244-248 | The map is written even if the user manager refuses afterwards |
| `CoreUsers.Core.DelUsers` | core/user.go:155-183 | A missing user manager is noticed before anything is deleted |
| `CoreUsers.Core.GetUserUUIDs` | core/user.go:51-63 | The prefix scan finds exactly the uuids registered under the tag |
| `CoreUsers.RegisterSet` | core/user.go:244-248 | Adding users adds exactly their uuids to those registered under the tag |
| `CoreUsers.RegisterAt` | core/user.go:244-248 | Each added user is registered under the id that the list, read to its end, has for it, and no other user of the tag changes |
| `CoreUsers.UnregisterAt` | core/user.go:161-174 | Each deleted user is gone, and no other user of the tag changes |
| `CoreUsers.OtherKeysUntouched` | core/user.go:244-248 | Whatever else is in the map stays, values included |
| `CoreUsers.UnregisterSet` | core/user.go:161-174 | Deleting users removes exactly their uuids |
| `CoreUsers.OtherTagsUntouched` | core/user.go:51-63 | No other tag without the separator sees any of it |
| `Traffic.TrafficIsConserved` | core/user.go:185-242 | Over every run of connections opened and used, sweeps, reports delivered, forgotten or added back, users registered and deleted under this tag or another, and node rebuilds: in each direction, what was in the books, what a uid's connections moved and what it inherited with an email is delivered, still in the books, lost, or astray in counters no longer listed; nothing is made up, and both directions together fall short by at most the sweep thresholds |
| `Traffic.StrayIff` | core/app/dispatcher/default.go:232-250 | What a connection of a registered user moves after any run goes astray if and only if, since it was opened, its user has been deleted, a sweep has found its user unregistered, or the node has been taken down; otherwise it is counted |
| `Traffic.ListedIff` | core/user.go:200-204 | Over every run, a counter is still listed if and only if it was and none of these has taken it off; once off it never comes back |
| `Traffic.OpenUntilRebuild` | core/user.go:225-227 | The tag has counters from the first connection until the node is taken down, and only then a report cannot be added back |
| `Traffic.ReregistrationGoesAstray` | core/user.go:66-69 | A user deleted and registered again while its connection stays open: what the connection moves from then on is neither delivered nor counted |
| `Traffic.EventConserves` | core/user.go:185-248 | Every event but the sweep balances exactly in each direction |
| `Traffic.CollectConserves` | core/user.go:185-220 | The sweep moves bytes from the counters to the report, but for the thresholds |
| `Traffic.TallyCounts` | core/app/dispatcher/default.go:240-250 | Bytes moved are counted for the uid of the connection's email exactly if its counter is still listed |
| `Traffic.ForgetLoses` | core/user.go:169-173 | Deleting a user of another tag takes exactly what this tag's counter of its email holds away from its uid, and leaves the counter standing |
| `Traffic.RemoveLoses` | core/user.go:169-173 | Deleting a user loses exactly what its counter holds |
| `Traffic.EnrolMoves` | core/user.go:244-248 | Registering an email moves exactly what its counter holds |
| `Traffic.DeletionLosesTraffic` | core/user.go:169-173 | A user deleted between two sweeps: what it has moved since the last one is delivered to nobody |
| `Traffic.SweepThenAddBack` | core/user.go:185-242 | With threshold 0, a sweep that is added back at once changes no uid's upload or download total, even when bytes return under another email of the uid |
| `Traffic.SweepReports` | core/user.go:185-220 | A sweep reports all bytes of a registered non-zero uid but at most mintraffic * 1000 for each counter, and leaves nothing counted |
| `Traffic.SweepExact` | core/user.go:193-211 | Exactly the counters above the threshold are reported, each in full |
| `Traffic.AddBackRestores` | core/user.go:225-242 | Adding back puts exactly the reported bytes of a registered uid on top of what has been counted since, and nothing for any other |
| `Traffic.BounceKeeps` | core/user.go:185-242 | At any threshold, a sweep that is added back at once invents nothing and loses at most the threshold of each counter |
| `Traffic.SweepKeepsExactlyLive` | core/user.go:195-204 | Exactly the counters of users not registered under a non-zero id are pruned, whatever they carry |
| `Traffic.SweepNamesOnlyLive` | core/user.go:200-211 | Only registered non-zero ids are reported |
| `Traffic.Ledger.GetUserTrafficSlice` | core/user.go:185-220 | The in-place sweep is the specified one |
| `Traffic.Ledger.AddBackTraffic` | core/user.go:225-242 | The reverse map inverts the registration in some way, and the loop credits by it; nothing happens if the tag has no counters |
| `Traffic.Ledger.GiveBack` | core/user.go:234-240 | The loop over the report credits each entry in turn |
| `Traffic.Ledger.Add` | common/counter/traffic.go:21-30 | The counter is found or created under a new identity, and credited |
| `Traffic.Ledger.Open` | core/app/dispatcher/default.go:232-240 | A connection gets the counter of its email, to keep; the tag has counters from then on |
| `Traffic.Ledger.Count` | core/app/dispatcher/default.go:241-250 | Bytes go into the counter that the connection has, if it is still listed |
| `Traffic.Ledger.Cleanup` | core/inbound.go:44-61 | Taking a node down drops the tag's counters |
| `Traffic.Ledger.Delete` | core/user.go:169-173 | A deleted user's registration and counter both go |
| `Sip004.StreamRoundTrip` | common/trojanss/ssaead.go:116-201 | For any writes, the plaintext to be had from the emitted chunks is exactly the written bytes |
| `Sip004.ReaderHolds` | common/trojanss/ssaead.go:102-157 | A reader about to get a salt and the chunks written under it has exactly those bytes pending |
| `Sip004.WrittenIsDelivered` | common/trojanss/ssaead.go:143-201 | Object to object: what one end has written in any number of calls is what a reader that is sent those bytes in any fragments has still to return |
| `Sip004.EmitAllSnoc` | common/trojanss/ssaead.go:176-201 | One more call makes the wire that of the longer run of writes |
| `Sip004.FrontOfChunk` | common/trojanss/ssaead.go:116-141 | A chunk, whatever follows it, opens to its data |
| `Sip004.FrontIff` | common/trojanss/ssaead.go:116-141 | A chunk is to be had if and only if its length block opens under nonce 2k to 1..0x3fff and as many bytes open under the next |
| `Sip004.ChunkLayout` | common/trojanss/ssaead.go:188-193 | A chunk is its length, high byte first, under nonce 2k, and its data under the next |
| `Sip004.EmitLayout` | common/trojanss/ssaead.go:182-200 | Where the i-th chunk of a write stands, which data it has and which nonces |
| `Sip004.EmitSize` | common/trojanss/ssaead.go:182-200 | One chunk and two nonces for each 0x3fff bytes begun |
| `Sip004.NonceUnique` | common/trojanss/ssaead.go:65-72 | No nonce of a direction comes back within 2^96 seals, which is 2^95 chunks |
| `Sip004.DigitsValue` | common/trojanss/ssaead.go:65-72 | As a little-endian integer the nonce after k increments is k modulo 2^96 |
| `Sip004.IncDigits` | common/trojanss/ssaead.go:65-72 | Incrementing the bytes is adding one, the wrap-around included |
| `Sip004.IncNonce` | common/trojanss/ssaead.go:65-72 | The in-place loop with its early return is that increment, for every width |
| `Sip004.Conn.Read` | common/trojanss/ssaead.go:143-157 | Returned plus pending plaintext is what was pending, for any buffer size and fragmentation; a failure means that nothing was left; after k chunks the nonce is 2k (`Valid`) |
| `Sip004.Conn.ReadChunk` | common/trojanss/ssaead.go:116-141 | A chunk is delivered whole or the read fails exactly when none can be had; lengths outside 1..0x3fff are refused |
| `Sip004.Conn.InitRead` | common/trojanss/ssaead.go:102-114 | The salt is consumed once and selects the key |
| `Sip004.Conn.Write` | common/trojanss/ssaead.go:176-201 | The salt once, then chunks of 1 to 0x3fff bytes under consecutive nonces; and if the connection has made some run of writes, it has afterwards made that run and this one (`Wrote`) |
| `Sip004.Conn.InitWrite` | common/trojanss/ssaead.go:159-174 | The salt goes out before the key is used |
| `Sip004.Conn.constructor` | common/trojanss/ssaead.go:98-100 | Both nonces are zero and neither key is set |
| `ObfsTls.ExtractFindsFirstTicket` | common/obfs/tls.go:195-235 | On every well-formed ClientHello (section 7.4.1.2 of RFC 5246) the walker returns the first SessionTicket extension (section 3.2 of RFC 5077), or that there is none, or that there is no extension block |
| `ObfsTls.FoundIsTicket` | common/obfs/tls.go:222-233 | On any byte string, what is found is the content of a SessionTicket extension inside it |
| `ObfsTls.ExtractSessionTicket` | common/obfs/tls.go:195-235 | The cursor loop stays in bounds and terminates on every byte string and agrees with the recursive walk, errors included |
| `ObfsTls.OpeningRoundTrip` | common/obfs/tls.go:154-189 | A connection opened by such a hello and continued in records is the ticket followed by all payloads |
| `ObfsTls.RecordsRoundTrip` | common/obfs/tls.go:238-258 | Application-data records of at most 2^14 bytes read back to their payloads |
| `ObfsTls.AppDataIs` | common/obfs/tls.go:238-258 | The stream ends at anything but a whole application-data record of version 3.3 with at most 2^14 bytes |
| `ObfsTls.OpeningIs` | common/obfs/tls.go:154-189 | A connection opens with a whole handshake record of at least 42 bytes that offers a ticket, or not at all |
| `ObfsTls.ServerStreamRoundTrip` | common/obfs/tls_test.go:73-95 | For any writes, empty ones included, the client decoder recovers exactly the written bytes |
| `ObfsTls.WrittenIsRecovered` | common/obfs/tls.go:262-293 | What a connection has written in any number of calls is what the client decoder recovers from its wire |
| `ObfsTls.EmitAllSnoc` | common/obfs/tls.go:262-293 | One more call makes the wire that of the longer run of writes, the handshake in front of the first byte only |
| `ObfsTls.EmitRoundTrip` | common/obfs/tls.go:262-322 | The same for one write of any size followed by anything, in records of at most 2^14 bytes |
| `ObfsTls.EmitSize` | common/obfs/tls.go:274-291 | One record for each 2^14 bytes begun, the first response 102 bytes longer |
| `ObfsTls.Conn.Read` | common/obfs/tls.go:100-127 | The ticket, then all payloads, for any buffer sizes; a failure means that nothing was left |
| `ObfsTls.Conn.ReadClientHello` | common/obfs/tls.go:154-189 | The ticket of the hello, or a failure exactly when the hello offers none |
| `ObfsTls.Conn.ReadAppData` | common/obfs/tls.go:238-258 | One record, or a failure exactly when no acceptable record is there |
| `ObfsTls.Conn.Write` | common/obfs/tls.go:262-293 | The fake handshake once, before the first byte, then records; and the run of writes made grows by this one (`Wrote`) |
| `ObfsTls.Conn.constructor` | common/obfs/tls.go:95-97 | No handshake yet, nothing buffered, the first response outstanding |
| `ObfsTls.ServerHello` | common/obfs/tls.go:297-302 | The filled template is 96 bytes long |
| `ObfsTls.ServerHelloLayout` | common/obfs/tls.go:297-302 | Both lengths in it are right, and time, random and session id are in their places |
| `ShadowStream.MuxRoundTrip` | common/shadowflow/stream.go:346-438 | For every interleaving of whole calls, every profile active at each, every draw that was made and left room for payload, and padding of any size, parsing the wire and keeping the data frames of one stream gives exactly that stream's bytes |
| `ShadowStream.ProgressIff` | common/shadowflow/stream.go:355-368 | The write loop makes progress in every turn, whatever is drawn, if and only if the weights do not sum to a negative number and every range that can be selected is a range and, raised to the smallest record, exceeds the six-byte header |
| `ShadowStream.SixBytesStandStill` | common/shadowflow/stream.go:355-368 | A profile of one six-byte range and no smallest record: no turn ever takes anything |
| `ShadowStream.NoMinimumNeeded` | common/shadowflow/collector.go:194-205 | A profile without a smallest record that is reliable all the same |
| `ShadowStream.ReliableWorks` | common/shadowflow/stream.go:347-438 | Under a reliable profile every draw that any call makes, for records and for padding, works |
| `ShadowStream.SampleSize` | common/shadowflow/profile.go:527-549 | The two loops compute the specified sample, panics included, for any weights and ranges |
| `ShadowStream.SomeRangeIsChosen` | common/shadowflow/profile.go:535-549 | The fallback behind the loop is never reached |
| `ShadowStream.ChosenIff` | common/shadowflow/profile.go:535-546 | Which picks select a range: those from the highest running sum before it up to its own |
| `ShadowStream.RollCovers` | common/shadowflow/profile.go:540-543 | A range yields exactly the sizes in it |
| `ShadowStream.RecordIs` | common/shadowflow/stream.go:357-360 | What is drawn is a size of the picked range raised to the smallest record, 512 if there are no weights |
| `ShadowStream.RecordOnWire` | common/shadowflow/stream.go:361-392 | A record on the wire is as long as was drawn unless the data ends or the length field is full; padding as long as was drawn, up to 2048, on stream 0 |
| `ShadowStream.SelectableMeansWeighted` | common/shadowflow/profile.go:527-549 | With weights that are not negative, the ranges that can be selected are those of positive weight |
| `ShadowStream.FrontOfMarshal` | common/shadowflow/stream.go:67-102 | Reading inverts marshalling for every frame that marshals, whatever follows |
| `ShadowStream.FrameLayout` | common/shadowflow/stream.go:67-81 | Type, flags, stream id and length with the high byte first, payload |
| `ShadowStream.ReadFrame` | common/shadowflow/stream.go:84-102 | The next frame of the wire, or none exactly when there is no whole one |
| `ShadowStream.SidesNeverCollide` | common/shadowflow/stream.go:178-198 | Client and server never give out the same id, however many streams they open |
| `ShadowStream.FirstIdsDistinct` | common/shadowflow/stream.go:194-198 | The first 32767 ids of a side are 1, 3, 5, ... or 2, 4, 6, ..., distinct and not zero; the server's next one is the reserved zero |
| `ShadowStream.Conn.OpenStream` | common/shadowflow/stream.go:194-211 | The k-th stream gets the k-th id, through the 32-bit counter and its truncation, and is announced |
| `ShadowStream.Conn.WriteData` | common/shadowflow/stream.go:347-396 | The loop terminates and puts the specified frames and paddings on the wire, for any profile and any numbers of which those drawn leave room for payload |
| `ShadowStream.Conn.WriteRecord` | common/shadowflow/stream.go:356-392 | One turn takes at least one byte, at most 65535, and sends them and the padding |
| `ShadowStream.Conn.WriteControl` | common/shadowflow/stream.go:399-416 | One frame, or an error for a payload over 65535 bytes |
| `ShadowStream.Conn.InjectPadding` | common/shadowflow/stream.go:419-438 | A padding frame on stream 0, at most 2048 bytes |
| `ShadowStream.Conn.constructor` | common/shadowflow/stream.go:170-183 | Servers start at 2, clients at 1 |
| `Reload.SurvivorNeverWithout` | cmd/server.go:186-244 | In every state of every number of reloads and every interleaving of the starts: an old tag whose new controller got past the user-list fetch has a limiter, and so has every controller that installed one |
| `Reload.NoGapBeforePruning` | node/controller.go:156-173 | Until pruning begins, every old tag has its limiter |
| `Reload.CompletedReload` | cmd/server.go:233-244 | A completed reload leaves an old tag its limiter if and only if some new controller of that tag got past the user-list fetch |
| `Reload.UnfetchedSurvivorIsPruned` | cmd/server.go:236-244 | A reachable state after a completed reload in which a node that is still configured has no limiter, because its user list could not be fetched |
| `Reload.AbandonedForever` | cmd/server.go:186-244 | A limiter that a failed reload left behind stays over every later run that does not configure its tag, however many reloads succeed in it |
| `Reload.FailedReloadAbandons` | cmd/server.go:225-231 | A reload that fails after the teardown so abandons the limiters of all nodes then in service |
| `Reload.AbandonedIsReachable` | cmd/server.go:225-231 | A reachable state in which a node that has left the configuration has a limiter that nobody will prune |
| `Reload.InvRun` | node/node.go:92-150 | The invariant holds in every reachable state |
| `Reload.InvStep` | node/controller.go:49-117 | and is kept by every step of the reload and of every concurrent start |
| `Reload.PruneLimiters` | cmd/server.go:236-244 | The two loops remove exactly the limiters of old tags missing from the new ones |
| `Reload.PruneSteps` | cmd/server.go:240-244 | Pruning step by step comes to the same |

## Left out

- Cryptography and key derivation: MD5, SHA-1, HMAC, AES, RC4, HKDF and Argon2 are parameters; nothing is said about secrecy or forgery.
- XorShift.Generator.Next: only its step and its determinism are modelled; nothing is said about the distribution of its outputs.
- AuthChainConn.Conn.Read: promises nothing about pending bytes when a part of the IV is lost on a record of unknown type; `IvLoss.LossIff` says exactly when that is.
- AuthAesConn.Conn.Read: the same; and nothing is modelled after a panic.
- StreamCipher.Conn.Read: the same; the plaintext after such a loss is that of a wrong IV and is not described.
- Sip004.Conn.Read: nothing is modelled after a read has failed; the code leaves the nonce wherever the failure found it.
- ObfsTls.Conn.Read: likewise nothing after a failed read; HTTP mode, to which the code switches when the first byte is not 0x16, counts as a failure.
- ShadowStream.Conn.WriteData: requires that the draws it makes leave room for payload, which `ShadowStream.ProgressIff` shows to be all draws exactly for reliable profiles; what a panic or an endless loop puts on the wire before is not described.
- CoreUsers.Core.DelUsers: the per-protocol runners that cannot refuse a deletion are the case in which none is refused; what xray's own inbound does with a user is not part of this model.
- CoreUsers.Core.AddUsers: building the per-protocol user records is not modelled, only whether the addition is refused.
- NodeController.Controller.NodeInfoMonitor: the comparison of node configurations, the port probe and its two-strikes counter are inputs of a cycle; the ETag is not modelled.
- LimiterObject.Limiter.CheckLimit: one call is one step; two goroutines that interleave inside it are not modelled. The token bucket is represented by its rate; that a returned bucket follows later changes of the limit is not claimed, because the code returns a cached one.
- TrialService.Service.NewConnection: a service reads in full what it wants next; the salt replay cache shared by all attempts and the failure to construct a service are not modelled; whether a key accepts is a function of the key and what it has read.
- TrialService.Service.Attempt: the same.
- Traffic.Ledger.GetUserTrafficSlice: counters are unbounded, the 64-bit wrap-around is not modelled; a counter is read and zeroed in one step, as the atomic swap does.
- Reload is modelled on values, as a state machine, because the starts run concurrently; the steps are those that the limiter table can observe, each atomic under the table's lock.
- Errors of writes to a socket, deadlines, and reads that return data together with an error are not modelled; a socket here reports the end of the stream on a read of its own.
- The origin protocol, plain and HTTP obfuscation, SOCKS address readers, the SNI router, inbound and route builders, certificates, the sing-box supervisor and the panel client would only add easy members.
- ShapedWriter, ShapedBufWriter, ConnPool and the delivery of frames into a stream's read buffer, which drops frames when the buffer is full, are not modelled.
- The rest of the report task, the auto speed limit and `SetDynamicSpeedLimitByUID` (other than as a throttle event on one user) are not modelled.
