# A Dafny model of lightsocks

lightsocks is a SOCKS and HTTP proxy. In client/server mode each connection travels between two nodes as
compressed, encrypted, length-prefixed frames. This project models the parts of it where order, aliasing and
interleaving decide correctness, and proves what they promise:

* **The tunnel.** The rotate-and-xor cipher on slices with in-place padding (`ByteCipher`, `Cipher`), the frame
  codec (`Protocol`, `Framing`), reading under arbitrary splits (`Stream`), the encoding copy loop (`SecureTcp`),
  one framed direction of a connection (`Links`) and the whole system of application, client, wire, server and
  target as interleaved steps (`Tunnel`, `TunnelSafety`, `TunnelProgress`, `TunnelEnds`). The steps use the same `FrameOf` and `ReadFrame`
  functions that the imperative `Encode`, `EncodeCopy` and `ReadFull` are proved against.
* **Destinations.** Printing and re-reading host and port (`HostPort`).
* **The LRU cache.** Map plus doubly linked list on the heap (`LinkedList`, `LruCaches`), refining a plain sequence
  of entries (`LruSpec`) about which the promises over whole histories are proved (`LruRuns`, `LruExpiry`,
  `LruReads`), and a cache with its clone over shared entries (`LruClones`).
* **The DNS resolver.** First success among concurrent clients (`Picker`), and the cache discipline of concurrent
  lookups over an explicit heap of message objects (`Resolver`, `ResolverSafety`, `ResolverCaching`, `ResolverCrash`).
* **Traffic counters** under interleaving (`Statistic`) and the **shutdown wait group** (`WaitGroup`).
* **Wire parsers**: SOCKS5 requests (`Socks5`), SOCKS4 and SOCKS4a (`Socks4`), SOCKS5 UDP (`Udp`).

`dafny verify dfyconfig.toml` verifies everything.

## What is taken as given

* Snappy is any pair of functions that satisfies `Compress.Lawful`: decompressing what was compressed gives it back,
  for non-empty data, within the expansion bound of the framing format. Every result holds for every such pair.
* The token is not empty and the same on both nodes; integers are 64-bit.
* A reader delivers at least one byte per read while any is left; read sizes, and whether the last bytes come with
  the final error, are arbitrary. A connection on which a write failed accepts nothing more.
  A read deadline makes every later read of the socket fail, while bytes already in a read buffer are still handed
  out. The framed connections may have read buffers of any capacity: a `BufferedConn` on the server, none on the
  client over plain TCP, what TLS holds otherwise. On the plain side only the handshake's buffer matters, because
  the copy loop reads past it.
* The clock is an argument and never goes back. Cache methods are atomic. The random number of a frame is an
  argument. A single-flight call hands its value to all callers that joined before it ended, and reports it as
  shared exactly when there is more than one.

## Results that differ from what one might expect

* `GetWithExpire` is documented as not checking or updating age (internal/cache/lrucache.go:96), but it goes through
  `get` and does both; the model follows the code. `DocumentedExactlyWhen` gives the configurations in which the
  comment holds, `AgeShows` a history that refutes it in every other.
* Expiries are sorted, and eviction by age complete, only in certain configurations. `SortedExactlyWhen`,
  `CleanExactlyWhen` and, with expiries from outside, `AnyExpiryExactlyWhen` give the exact ones and a history that
  breaks every other.
* `CloneTo` shares entry objects, so a later write to the source shows in the clone (`WriteShowsInClone`);
  `OperateAfterClone` says of every operation exactly when it does, `Interleave` what any later history leaves.
* `UnPack` has no size limit while `ReadFull` has one (`UnpackAgrees`), and it decrypts in the caller's buffer,
  overwriting what follows the frame with the padding when the capacity allows it.
* A destination with square brackets in its host is not recovered (`DestinationRoundTrip`, both directions).
* A SOCKS5 name of 252 bytes or more overruns the request buffer; a SOCKS4a name is cut short when the first read
  ends inside it (`RequestRoundTrip`, `DomainRoundTrip`, both as exact conditions).
* Both handshakes may read past the end of the request, and what they read there never reaches the relay; SOCKS4 may
  also stop before its end (`NothingSwallowedExactlyWhen`, `BoundaryMissed`).
* A relay that is cancelled still passes on what its connections had buffered: `CancelStops` bounds it,
  `HeldGetsThrough` and `BufferedGetsThrough` show that the bounds are reached.
* The goroutine that answers a UDP request starts before the request is sent and may write over its data
  (`RequestDataIntact`).
* An upstream DNS reply without a question ends the process (`CrashExactlyWhen`).
* Bytes counted between a tick's load and its clear never show in a blip (`TotalsBalance`, `BytesCanBeLost`).
* A connection that fails before its `PostFn` is deferred blocks a graceful shutdown until the timeout
  (`ShutdownExactlyWhen`).

## Model

| member | source | states |
|---|---|---|
| ByteCipher.ByteRoundTrip | internal/cipher/encryption.go:86-100 | xor-then-rotate-right and rotate-left-then-xor undo each other for every byte and key byte, shift 0 included |
| ByteCipher.CipherBits | internal/cipher/encryption.go:50-100 | bit b of an encrypted byte is set if and only if bit b + k % 8, around the byte, of the data byte differs from that bit of the key byte k; a decrypted byte likewise, rotated the other way before the key bit |
| Cipher.EncryptedExactlyWhen | internal/cipher/encryption.go:53-63 | some bytes are the encryption of the data if and only if each of their bits is that exclusive or, with the key byte at the position modulo the key length |
| Cipher.DecryptedExactlyWhen | internal/cipher/encryption.go:71-81 | the same for decryption |
| Cipher.CipherBijection | internal/cipher/encryption.go:9-29 | for every non-empty key, encryption and decryption are mutually inverse on byte strings of every length |
| Cipher.Rotate.Complete | internal/cipher/encryption.go:39-48 | pads with zeros to a multiple of the key length; in the caller's array exactly when the capacity allows it |
| Cipher.Rotate.ShiftRight | internal/cipher/encryption.go:86-92 | rotates each byte of one block right by its key byte and changes nothing else in the array |
| Cipher.Rotate.ShiftLeft | internal/cipher/encryption.go:94-100 | rotates each byte of one block left by its key byte and changes nothing else in the array |
| Cipher.Rotate.EncryptBlocks | internal/cipher/encryption.go:53-63 | the nested block loops give, at every position, the byte combined with the key byte at that position modulo the key length |
| Cipher.Rotate.DecryptBlocks | internal/cipher/encryption.go:71-81 | the same for decryption, and the data themselves end up left-rotated in place |
| Cipher.Encrypt | internal/cipher/encryption.go:50-66 | the padded loops compute the position-wise map, stated bit by bit, and keep the length; the caller's array changes only by zero padding that fits its capacity |
| Cipher.Decrypt | internal/cipher/encryption.go:68-84 | computes the inverse map, stated bit by bit; the caller's array is left-rotated with zero padding past its end when the padded slice aliases it, untouched otherwise |
| Stream.Reader.ReadAtLeast | internal/socks5/tcp.go:177-182 | at least the asked bytes in order for any read sizes, exactly as many as the schedule of reads gives, or the error a short stream ends with |
| Stream.Reader.ReadFull | internal/protocol/proto.go:97-111 | the outcome depends on the bytes alone, not on how reads split them |
| Protocol.Encode | internal/protocol/proto.go:49-69 | fills the buffer with length, random number and encrypted compressed body, most significant byte first: the first four bytes, weighted, are the length of the rest and the next two the data length modulo the number drawn; empty data and frames of 2^32 bytes fail |
| Protocol.ReadFull | internal/protocol/proto.go:96-125 | reads one frame off the stream: outcome and rest are a function of the bytes for every split, the length and the number being those of the header bytes by their weights |
| Protocol.UnPack | internal/protocol/proto.go:71-94 | the frame at the start of a buffer, with the same reading of its header, and exactly what decrypting does to that buffer |
| Framing.FrameRoundTrip | internal/protocol/proto.go:49-125 | a frame followed by anything is read back as its payload and number if and only if its body is at most 1<<24 bytes, otherwise refused after the header |
| Framing.UnpackAgrees | internal/protocol/proto.go:71-107 | on a buffer that starts with a whole frame the two readers agree if and only if the body is within the limit |
| Framing.WireAppend | internal/protocol/proto.go:31-42 | frames sent one after the other are the concatenation of their encodings |
| Framing.ReadPackets | internal/protocol/proto.go:96-125 | reading frame by frame from the concatenation of any fitting messages returns exactly those payloads and numbers in order and stops at the boundary, for every split |
| SecureTcp.EncodeWrite | internal/net/securetcp.go:32-40 | one message becomes one whole frame on the connection if there is room for it, otherwise the part that fits and an error |
| SecureTcp.EncodeCopy | internal/net/securetcp.go:42-63 | the frames sent carry a prefix of the source, one chunk per read of at most 65536 bytes; the connection gets exactly as much of them as it has room for; without a write error exactly the bytes that came with the final error are missing |
| Links.ParseKeeps | internal/net/relay.go:80-90 | a packet returned by the receiver is the next message sent, and parsing stays on frame boundaries, under partial writes and failures |
| Links.TakenExactlyWhen | internal/protocol/proto.go:96-125 | a whole frame in the inbox is the next one sent and is accepted if and only if its body is within the limit |
| TunnelSafety.RelaySends | internal/net/relay.go:68-76 | every step of a relay keeps its sending half: frames sent, bytes that came with the read error and bytes unread are, in this order, all that was to be sent |
| TunnelSafety.RelayReceives | internal/net/relay.go:77-92 | every step of a relay keeps its receiving half: what was written plus the write in progress is what the parsed frames carried |
| TunnelSafety.StepKeeps | internal/tunnel/tunnel.go:77-126 | every step of the two nodes, opening frames, PreFn, relays and failures included, keeps the system invariant |
| TunnelSafety.OrderedDelivery | internal/tunnel/tunnel.go:77-126 | in every interleaving the target gets a prefix of line then application bytes, the application a prefix of PreFn reply then target bytes, and the server's destination is the client's |
| TunnelSafety.BytesConserved | internal/net/relay.go:58-94 | in every reachable state of either direction, copy loop running or ended and links failed or not: written, being written, in frames on their way, dropped with the read error and unread bytes together are the introduction and all that arrived, unless the receiver's own write failed |
| TunnelSafety.ExactDelivery | internal/net/relay.go:58-94 | a drained direction, also one whose copy loop has ended, has delivered everything but at most one chunk that came with the read error and what was never read |
| TunnelSafety.CancelStops | internal/net/relay.go:75-91 | after the step in which a node's decoding loop ends, in every later state of the run, the peer's plain side has no more than the frames sent before it carry and what the client's handshake had left in its read buffer; after the step in which its encoding loop ends the own plain side has no more than the packets returned and the whole frames received before it carry |
| TunnelEnds.HeldGetsThrough | internal/net/relay.go:77-91 | the first bound is reached: for all bytes that came with the request there is a run in which the client is cancelled before it sent any of them and the target still gets all |
| TunnelEnds.BufferedGetsThrough | internal/net/relay.go:68-90 | the second bound is reached, in both directions, by any chunk whose frame fits the receiver's read buffer |
| TunnelEnds.FirstErrorEnds | internal/net/relay.go:68-92 | a copy loop ends with its first error: no frame is sent after one in the encoding loop, no packet taken and nothing written after one in the decoding loop |
| TunnelEnds.CancelledBecause | internal/net/relay.go:68-92 | a deadline is set only after a step of the run in which the loop that sets it met its error |
| TunnelEnds.AbortEnds | internal/tunnel/tunnel.go:57-97 | after an early return a node sends and writes nothing more; after a PreFn reply that could not be written the application gets nothing more |
| TunnelEnds.EndPossible | internal/net/relay.go:58-94 | from every reachable state in which both nodes relay there are steps that end all four loops |
| TunnelEnds.SessionPossible | internal/tunnel/tunnel.go:77-126 | from the start, whatever is sent with the request and later, there are steps after which the server has dialed the destination and exactly those bytes have come out, if the opening frames fit |
| TunnelEnds.DialedFits | internal/server/tcp.go:116-124 | in no run does the server dial when the destination frame is too long |
| TunnelSafety.BuffersBounded | internal/net/bufconn.go:13-32 | read buffers stay within their capacity; a connection without one never has more than one whole frame in hand, so at most one more packet is returned after its deadline |
| TunnelSafety.ChunkNeverRefused | internal/net/securetcp.go:45-61 | in every reachable state a relay without a read deadline can read, encode and write any chunk that is there |
| TunnelSafety.FramesTaken | internal/net/relay.go:80-84 | in every reachable state a whole frame received is accepted if and only if it fits, and only an opening frame can fail to |
| TunnelProgress.DeliveryPossible | internal/net/relay.go:58-94 | from every reachable state in which a direction is running and unbroken, cancelled ones with everything in their buffers included, there are steps after which nothing is on its way and all that arrived at one end has been written at the other, after the line or the reply |
| TunnelSafety.FirstFrameKeeps | internal/server/tcp.go:116-149 | the first frame becomes the destination and adds nothing to what the target receives |
| TunnelSafety.DialsWhatWasAsked | internal/server/tcp.go:125-148 | in every run the server dials exactly the address and port the client was asked for, when the address has no brackets |
| HostPort.IntRoundTrip | internal/constant/metadata.go:57-59 | every 64-bit number is recovered from its printed form |
| HostPort.DigitsAreDecimal | internal/constant/metadata.go:57-59 | the printed digits, each times its power of ten, sum to the number, and there is no superfluous zero in front |
| HostPort.ParseIntMeans | internal/server/tcp.go:134-147 | what any text becomes as a port when the error is ignored: sign and decimal digits their number within 64 bits, digits past 2^64 the end of the range, anything else zero |
| HostPort.PrintedBytes | internal/constant/metadata.go:57-59 | the destination is the address, in square brackets if it has a colon, then a colon and the port in decimal digits |
| HostPort.BracketedRoundTrip | internal/server/tcp.go:141-147 | a host with colons comes back exactly when it has no bracket of its own, otherwise splitting fails |
| HostPort.BareRoundTrip | internal/server/tcp.go:141-147 | a host without colons comes back when it has no brackets; brackets are refused or stripped |
| HostPort.DestinationRoundTrip | internal/constant/metadata.go:57-59 | the server recovers exactly the printed address and port if and only if the address contains no square bracket |
| HostPort.DestinationExactlyWhen | internal/socks5/tcp.go:224-259 | the target of a SOCKS request, printed and re-read, keeps host and port if and only if the text of the host has no square brackets |
| LinkedList.DList.MoveToBack | internal/cache/lrucache.go:131-131 | relinks one element to the back; the others keep their order and all links stay consistent |
| LinkedList.DList.Remove | internal/cache/lrucache.go:211-211 | unlinks one element; the others keep their order and all links stay consistent |
| LruCaches.LruCache.constructor | internal/cache/lrucache.go:67-79 | a new cache is empty and its map and list agree |
| LruCaches.LruCache.DeleteElement | internal/cache/lrucache.go:210-217 | removes exactly this entry from list and map and makes exactly one callback with its key and value |
| LruCaches.LruCache.MaybeDeleteOldest | internal/cache/lrucache.go:201-208 | terminates and removes exactly the longest expired prefix, front first, one callback each |
| LruCaches.LruCache.SetWithExpire | internal/cache/lrucache.go:126-147 | keeps map and list in one-to-one agreement and refines the write on the plain sequence, callbacks included |
| LruCaches.LruCache.Set | internal/cache/lrucache.go:115-122 | the same with the expiry computed from its own clock reading |
| LruCaches.LruCache.Fetch | internal/cache/lrucache.go:166-188 | returns the entry object of the key if and only if it is present and has not expired, or may be returned stale, with its value and its expiry, renewed or not; evicts an expired key with the expired prefix, otherwise moves the entry to the back |
| LruCaches.LruCache.Get | internal/cache/lrucache.go:81-91 | the value of the key's entry if and only if it is present and has not expired, or may be returned stale, with the effect of the lookup |
| LruCaches.LruCache.GetWithExpire | internal/cache/lrucache.go:93-104 | value and expiry of the entry under the same condition, with the same age test and renewal as a plain lookup |
| LruCaches.LruCache.Delete | internal/cache/lrucache.go:190-199 | removes the key if present, with its callback, and nothing else |
| LruCaches.LruCache.CloneTo | internal/cache/lrucache.go:149-164 | the target gets the same entries in the same order through its own list and map, sharing the entry objects, whatever its size limit |
| LruClones.Interleave | internal/cache/lrucache.go:149-217 | any interleaved history on a cache and its clone keeps both valid, and leaves exactly the lists, and the shared keys, of a specification in which a write to a shared entry shows on both sides and a key is shared until one side drops it |
| LruClones.SharedStayInStep | internal/cache/lrucache.go:160-163 | in every interleaved history both show the same value and expiry for every key they have both held since the cloning |
| LruClones.OwnOrderExactlyWhen | internal/cache/lrucache.go:160-188 | the keys of a cache and their order follow its own operations in all interleaved histories if and only if it does not age |
| LruClones.KeptAlive | internal/cache/lrucache.go:175-187 | with aging, a write to the other cache keeps an entry alive that would have been evicted |
| LruClones.OperateAfterClone | internal/cache/lrucache.go:149-188 | after cloning, an operation on the source changes the clone if and only if it is a write that changes the entry of a present key or a hit that moves its expiry; new keys, evictions and deletions never do |
| LruClones.WriteShowsInClone | internal/cache/lrucache.go:130-134 | the failing case: overwriting a present key after cloning changes the clone's entry too |
| LruCaches.Replay | internal/cache/lrucache.go:81-217 | any history on a new cache leaves exactly the list, and makes exactly the callbacks in order, with key and value of each entry removed, of the plain sequence |
| LruSpec.RunWellFormed | internal/cache/lrucache.go:136-143 | after every history keys are distinct and the length is within the configured size |
| LruRuns.CallbacksBalance | internal/cache/lrucache.go:130-146 | over any history the keys inserted while absent are, with multiplicity, those still present plus those called back |
| LruRuns.ListIsMostRecent | internal/cache/lrucache.go:126-188 | with a size limit and no aging the list is exactly the most recently touched distinct keys in order of last touch, a touch being a write or a hit |
| LruRuns.EntriesAreLastWrites | internal/cache/lrucache.go:130-137 | in every history each entry holds the value, and unless reads renew it the expiry, of the last write to its key |
| LruReads.ReadReturns | internal/cache/lrucache.go:81-104 | after every history a read returns something if and only if the list holds an entry for the key that has not expired or may be stale; it is the value last written, with the stored expiry or the renewed one |
| LruReads.ReadsAreIndependent | internal/cache/lrucache.go:126-217 | in every clocked history a read finds only what the operations on its own key have left, each key living as if alone; without a size limit it finds exactly that, so eviction by age is never noticed |
| LruReads.DeletedStaysGone | internal/cache/lrucache.go:190-199 | a deleted key is not in the list, and no read finds it, until it is written again |
| LruReads.WrittenStays | internal/cache/lrucache.go:136-143 | without aging a key that was written and not deleted is there while fewer operations than the configured size have followed |
| LruReads.ReadAfter | internal/cache/lrucache.go:81-91 | `Get` on the linked structure after any clocked history: the value last written or nothing, and without a size limit exactly what the key's own operations left |
| LruExpiry.SetSorted | internal/cache/lrucache.go:116-122 | a write keeps expiries bounded by clock plus maximum age, keeps them sorted, and then leaves nothing expired |
| LruExpiry.RunSorted | internal/cache/lrucache.go:175-187 | in every clocked history of Set, Get and Delete expiries are bounded, and sorted where reads keep the order |
| LruExpiry.SortedExactlyWhen | internal/cache/lrucache.go:182-186 | expiries are sorted in all histories of Set, Get and Delete if and only if reads renew the age, or the age is one second, or there is room for one entry |
| LruExpiry.CleanExactlyWhen | internal/cache/lrucache.go:201-208 | nothing expired survives a Set or an expired read in any history of Set, Get and Delete if and only if reads renew the age, or the age is one second, or there is room for at most two entries |
| LruExpiry.StaleSurvives | internal/cache/lrucache.go:204-206 | in every other configuration a concrete history leaves an expired entry behind an unexpired one |
| LruExpiry.AnyExpiryExactlyWhen | internal/cache/lrucache.go:126-147 | once SetWithExpire gives arbitrary expiries, order and complete eviction hold in all histories if and only if there is room for one entry |
| LruExpiry.EarlierBehindLater | internal/cache/lrucache.go:126-147 | the history of two such writes that breaks both otherwise |
| LruExpiry.DocumentedExactlyWhen | internal/cache/lrucache.go:93-104 | GetWithExpire neither checks nor renews the age, as its comment says, in every history if and only if no age is configured, or stale entries are returned and reads do not renew |
| LruExpiry.AgeShows | internal/cache/lrucache.go:166-188 | in every other configuration a write and a GetWithExpire after the maximum age show the difference |
| Picker.StepKeeps | internal/picker/picker.go:61-80 | every step keeps the gate log exact and the recorded result and error equal to its first success and first failure |
| Picker.WaitReturnsFirst | internal/picker/picker.go:44-57 | in every interleaving Wait returns the value of the first job that the steps took through the success gate, nil exactly when all failed, and Error is that of the first through the other |
| Picker.OutcomesWereReturned | internal/picker/picker.go:61-80 | the outcome a job takes through its gate is the one its function returned |
| Picker.WaitPossible | internal/picker/picker.go:44-57 | whatever the running jobs come to return there are steps after which Wait has returned |
| Picker.BatchPicksGoodReply | internal/dns/util.go:94-120 | when each job returns its client's answer judged by RCODE, a returned reply was given by a client and its RCODE is neither 2 nor 5; an error is returned exactly when each client failed or answered with one of these |
| ResolverSafety.LookupKeeps | internal/dns/resolver.go:117-118 | a lookup only reorders the cache and hands out an object backed by a genuine reply and its expiry |
| ResolverSafety.StoreKeeps | internal/dns/util.go:17-38 | storing puts a fresh copy with the expiry computed from its first TTL under the question of the fetch |
| ResolverSafety.DeliverKeeps | internal/dns/resolver.go:160-165 | a shared reply is copied for each caller, an unshared one handed over, and nobody else held it |
| ResolverSafety.StepKeeps | internal/dns/resolver.go:112-168 | every step of any number of concurrent calls, refreshes and fetches keeps the ownership invariant |
| ResolverSafety.NothingShared | internal/dns/resolver.go:119-165 | in every run no message object given to a caller is also in the cache or given to another caller |
| ResolverSafety.CachedNeverChange | internal/dns/resolver.go:121-131 | whatever callers do to their messages, a message in the cache reads the same ever after |
| ResolverSafety.CachedAreAnswers | internal/dns/resolver.go:142-158 | every message in the cache equals an earlier upstream reply to a request with its key |
| ResolverSafety.DeliveredAreAnswers | internal/dns/resolver.go:160-165 | a fetched message is handed over with the contents of an upstream reply to that question, itself if and only if nobody else joined the fetch, otherwise as a new copy |
| ResolverSafety.HitTtlBound | internal/dns/resolver.go:119-132 | a hit gives every record of all sections one TTL and changes nothing else: 1 once the expiry has passed, otherwise the rest of the first record's TTL, never more than is left, short of it by less than two seconds, and exact for a reply stored on a whole second |
| ResolverCaching.StoreCaches | internal/dns/util.go:17-38 | a stored reply is put at the back of the cache, copied, under its key and with the time plus the TTL of its first record as expiry, if and only if it has a record and does not answer a TXT question for an _acme-challenge name |
| ResolverCaching.FoundAgain | internal/dns/resolver.go:117-158 | a kept reply is found by every later lookup of its key as long as fewer than 65535 stores and lookups lie between: the lookup hits, with a reply stored no earlier |
| ResolverCaching.StaleRefreshes | internal/dns/resolver.go:121-130 | a hit starts a background fetch for its question if and only if the entry is stale, and that fetch can go ahead |
| ResolverCaching.NoCallStuck | internal/dns/resolver.go:112-168 | from every reachable state in which no reply without a question waits to be stored, every call can be brought to its end whatever the others do |
| ResolverCaching.FailureReachesAll | internal/dns/resolver.go:142-168 | a fetch can fail while it waits upstream; then everyone waiting for it can be told and fails, and the key is free for a new fetch |
| ResolverCrash.CrashExactlyWhen | internal/dns/util.go:17-19 | in every run the process has died exactly when some fetch stored an upstream reply that carries no question |
| Statistic.StepKeeps | internal/statistic/manager.go:42-50 | every atomic addition, and every load, publish and clear of the ticker, keeps the accounting of pushed bytes |
| Statistic.TotalsBalance | internal/statistic/manager.go:79-88 | whenever a direction is quiet its total is the sum of the connection totals, and is the blips stored by the steps of the run plus temp plus exactly the bytes that steps of the run added between a load and its clear; blips and temp alone suffice if and only if no step did |
| Statistic.TotalsTrackConnections | internal/statistic/tracker.go:34-48 | at any moment a total is the sum of the connection totals plus the tracker updates in between |
| Statistic.TotalsAreTransfers | internal/statistic/tracker.go:34-48 | a total is the bytes of the transfers that have reached it and each connection's total those of its own fully counted ones, the transfers being those the steps began |
| Statistic.BlipIsLastLoad | internal/statistic/manager.go:79-88 | a blip, until the next is stored, is what temp held at the load before it |
| Statistic.OneTickAtATime | internal/statistic/manager.go:79-88 | the ticker is never in the middle of both directions |
| Statistic.QuietPossible | internal/statistic/manager.go:42-88 | from every reachable state there are steps after which no tick is under way and every transfer is fully counted |
| Statistic.BytesCanBeLost | internal/statistic/manager.go:83-84 | for every size there is a run in which that many bytes are never published |
| WaitGroup.CounterIsOutstanding | internal/server/tcp.go:109-152 | the counter is the Accept steps of the run less its PostFn and first-frame-error steps, one per connection at most, never negative, and zero exactly when every connection had one |
| WaitGroup.ShutdownExactlyWhen | internal/tunnel/tunnel.go:57-102 | from a state of a run the counter can still come to zero if and only if no connection has returned early or failed its handshake |
| WaitGroup.EarlyReturnsBlockShutdown | internal/tunnel/tunnel.go:57-102 | a connection that returned before PostFn was deferred, or failed its handshake, keeps the counter above zero for ever |
| WaitGroup.FailureWhileHandling | internal/mixed/mixed.go:138-165 | a connection that fails while its listener handles it is counted done by the server, and in the mixed listener keeps the counter above zero in every continuation |
| WaitGroup.StepKeeps | internal/mixed/mixed.go:138-165 | every step of any connection in either mode keeps the counter equal to the connections not yet counted done |
| Socks5.ProcessRequest | internal/socks5/tcp.go:174-225 | under every split of the reads succeeds exactly on a complete request within the buffer and returns its command, host and port, each at its place in the bytes, the port most significant byte first; every error, and the bytes taken off the stream, are given exactly |
| Socks5.NothingSwallowedExactlyWhen | internal/socks5/tcp.go:174-204 | bytes after the request survive every schedule of reads if and only if there are none or the request fills the buffer |
| Socks5.RequestRoundTrip | internal/socks5/tcp.go:189-222 | an encoded request followed by anything is recovered, from bytes laid out as the parser reads them, if and only if ten bytes arrive and a name has at most 251 bytes |
| Socks5.RequestBecomesDestination | internal/socks5/tcp.go:206-259 | an encoded request, under every split and whatever follows it, becomes the destination it names if and only if the text of its host has no square brackets |
| Socks4.ReadUntilNull | internal/socks4/tcp.go:161-170 | the bytes before the first null, or all of them |
| Socks4.ParseRequest | internal/socks4/tcp.go:73-121 | parses command 1, port, address, user and domain, each at its place in the bytes; refuses exactly another command or a user that is not accepted; both null scans stop at the same place |
| Socks4.Handshake | internal/socks4/tcp.go:62-121 | the outcome is a function of what the first read of at least eight bytes delivered, and how much that is of the schedule |
| Socks4.BoundaryMissed | internal/socks4/tcp.go:62-73 | bytes after the request are never swallowed, under any schedule, if and only if there are none or the request fills the buffer; some schedule always leaves part of the request to the relay |
| Socks4.AddressRoundTrip | internal/socks4/tcp.go:88-103 | address and port are recovered from any first read of at least eight bytes |
| Socks4.UserRoundTrip | internal/socks4/tcp.go:81-101 | the user name is read whole exactly when its end was received |
| Socks4.DomainRoundTrip | internal/socks4/tcp.go:105-118 | the 4a name and port are recovered if and only if the first read reaches the end of the name, or the name is empty and the read does not fill the buffer |
| Socks4.RequestBecomesDestination | internal/socks4/tcp.go:88-145 | an encoded request of which the read got enough becomes the destination it names if and only if the text of its host has no square brackets |
| Udp.HandleUdpPacket | internal/udp/udp.go:72-109 | splits a datagram by a moving index into a header and data that together are the datagram, with each error and panic, address type, address and port at their places in the bytes, the header being a slice of the same array |
| Udp.HeaderRoundTrip | internal/udp/udp.go:88-106 | every well-formed request is split into exactly its address, port, header and data |
| Udp.HandleRemoteRead | internal/udp/udp.go:139-158 | each reply is exactly the header followed by that datagram although append reuses the backing array; the header is never disturbed, and what the replies leave behind it is given exactly |
| Udp.RequestDataIntact | internal/udp/udp.go:129-131 | request data still to be sent survive the replies before them if and only if at each position the last datagram written there, if any fitted the capacity, had the same byte |

## Left out

- Snappy, TLS, the DNS message library, single-flight internals, sockets and the unbounded channel: foreign code, represented by the contracts above.
- REST API, websocket streaming, configuration, log rotation and command line: I/O and framework plumbing.
- HTTP proxy request rewriting (internal/http): it works on the whole zero-padded buffer, so there is no meaning to preserve; its result enters the tunnel as the line.
- SOCKS5 method negotiation and password sub-negotiation, the reply to a UDP ASSOCIATE and the dispatch on the command byte: fixed exchanges with only easy properties.
- Direct mode (`Relay.direct`): two library copies with no logic of their own.
- The UDP association map and its timeout: the record that is looked up is never stored, so there is no session state.
- User and CIDR checks (internal/auth): short scans over library parsing; they enter as a predicate.
- The textual form of IP addresses (`net.IP.String`): library code; addresses are kept as bytes.
- The literal-IP branch of `lookupIP`, the A/AAAA preference of `LookupIP` and `msgToIP`: case analysis with only easy properties.
- `Exist`, `Join`, `Leave`, `Snapshot` and `ResetStatistic`: single map or counter operations; resets and 64-bit overflow are excluded from the counter results.
- Go memory-model races, such as reading an entry after `get` has released the lock.
- ResolverSafety.HitTtlBound: the two clock readings on the hit path are taken to coincide, and the seconds left are computed exactly rather than in floating point.
- TunnelSafety.OrderedDelivery: a connection that failed a write is taken to fail all later ones; without that, a PreFn reply cut short could be followed by target bytes.
- LruRuns.ListIsMostRecent: covers histories of writes and reads; deletions are covered by the other results about histories.
