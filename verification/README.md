# A model of the streaming host

The host takes encoded video frames, cuts them into packets and sends them to a client; takes input packets from that client;
lets clients pair and remembers them; runs work on a small thread pool; and reads and writes its configuration. This project
models those parts in Dafny and proves what they are meant to guarantee.

`dafny verify dfyconfig.toml` checks all of it.

How it is laid out:

- **Video.** `PacketGaps` makes room for headers, `FecSplit` cuts a frame into FEC blocks, `FecEncode` lays a block out as data
  and parity shards over two buffers, `PacketHeaders` and `Stamping` write the headers in place, `VideoSender` is the broadcast
  loop of one session with its counters and its pacing (`Pacing`), `Datagrams` says what goes out, and `Receiver` what can be made
  of it: by taking out the data shards, and by a client that reads nothing but the datagrams. `Nonces` is about the IVs of one
  session key.
- **Input.** `InputBatch` is what merging two packets does, `InputQueue` the queue that merges while it skips.
- **Pairing.** `DeviceStore` is the list of paired devices and its state file, `Pairing` the four-phase protocol.
- **Tasks.** `TaskPool` is the queue and the sorted timers, `ThreadPool` the workers as interleaved steps.
- **Text.** `ConfigText` parses and prints the configuration file, `EnvExpand` expands `$(VAR)`, both with the nesting of
  `Brackets`; `ReorderApps` puts apps in a requested order, `ZwPad` makes titles sort by position.
- **Commands.** `PrepUndo` runs commands before an app and undoes them after it.

Where the original changes things in place, the model is a class with the same fields, or writes into the same arrays, and every
method is tied to a function of the old state; the theorems are about those functions and about whole runs of them. Where the
original is concurrent (`ThreadPool`) or talks to many clients at once (`Pairing`), a run is any sequence of steps.

What stands for the outside world: the clock, random values, the outcome of a command and the answer of the network are
parameters or arbitrary values; `timer->sleep_for` never returns early and the steady clock never runs backwards. Cryptography
and Reed-Solomon are uninterpreted functions: decrypting undoes encrypting, and encoding a block yields parity of the right size
without touching the data. Constants of headers that are not part of this model are constants here: `DATA_SHARDS_MAX` is 255,
`MAX_RTP_HEADER_SIZE` 16, `sizeof(RTP_PACKET)` 12 and `sizeof(NV_VIDEO_PACKET)` 16.

Where the code does not do what one would expect, the code is followed and the exact condition is proved:

- The limit on data shards per FEC block holds for all frames exactly when a packet has at least three bytes
  (`FecSplit.LastFitsExactly`); real packets are far larger.
- The percentage a receiver is told stands for the parity that was sent exactly when it was not raised, or the division that
  raised it lost less than 100 (`FecEncode.AnnouncedParity`), always so up to 100 data shards; it fits its eight bits, and the
  shard counts their ten, under the condition of `Receiver.DecodableExactly`. The data shards themselves give every frame back;
  a client that goes by those header fields can be misled where the condition fails (`Receiver.RaisedMisleads`).
- The length of the last slice goes into 16 bits, so packets with more room than that cannot all be cut to length
  (`Receiver.FrameReassembled` says exactly when, `Receiver.LongSliceLost` is a frame of which nothing is left).
- Packet size and parity minimum come from the client unchecked. A block within its limit has room for its parity exactly if the
  minimum leaves room beside a full block (`FecSplit.ParityFitsExactly`), and the pacing divides by zero exactly for blocks of more
  than 100000 bytes (`Pacing.RateIsPositive`).
- Opening a pairing again under an id keeps the session that is there. A client that broke off after its PIN and starts anew is
  refused (`Pairing.RetryRefused`); `Pairing.HonestClientCompletes` has the exact condition under which one is let in.
- When the state file cannot be opened for writing, nobody is told: a device that has just paired is lost again, and one that was
  just unpaired comes back. When no state is kept, or the state file cannot be read, a device that has paired is in the list but
  not in the certificate chain (`DeviceStore.Store.AddAuthorizedClient`, `DeviceStore.Store.UnpairClient`).
- The comments over the summing merges speak of avoiding overflow, but the code merges exactly the sums that do overflow
  (`InputBatch.SummedExactlyOnOverflow`); movement is conserved modulo 65536 only.
- Delaying a timer keeps the timers sorted exactly when the new deadline is not before that of the timer behind
  (`TaskPool.DelayedSortedExactly`, with `TaskPool.HastenedIsLost` an example).
- A configuration file comes back exactly when the name and the value of every entry lie in a domain that
  `ConfigText.FileSurvivesExactly` spells out. Being in it is not enough for an entry by itself: a list left open by the value in
  front of it takes it in (`ConfigText.OpenListSwallows`, `ConfigText.GoodEntrySwallowed`).
- Expanding a text fails exactly when some reference in it is never closed, wherever it stands (`EnvExpand.FailsExactly`).
- A list of one app gets a width of zero for its prefixes, which is then refused (`ZwPad.WidthWorksExactly`).

## Model

| member | source | states |
|---|---|---|
| PacketGaps.ConcatAndInsert | src/stream.cpp:735-771 | the new buffer is the frame header and payload with a gap of zeros before every slice, whatever their lengths; all buffer accesses in range |
| FecSplit.SplitBlocks | src/stream.cpp:1413-1460 | one to four non-empty blocks on packet boundaries that concatenate to the payload, no fewer would do; all but the last have one size, an equal share of the payload rounded up to whole packets; FEC is off exactly when four full blocks cannot hold it; otherwise no block exceeds the shard limit |
| FecSplit.CutBlocks | src/stream.cpp:1449-1458 | no `substr` is out of range, all blocks but the last have the aligned size, the last takes the rest |
| FecSplit.ShardLimit | src/stream.cpp:1413-1422 | the limit is the largest number of data shards that fit into 255 with their parity, which is the percentage of them rounded up |
| FecSplit.ParityFits | src/stream.cpp:1413-1428 | a block within the limit, with the parity it gets or the parity minimum, never exceeds 255 shards |
| FecSplit.ParityFitsExactly | src/stream.cpp:1413-1428 | all blocks within the limit fit beside their parity exactly when the parity minimum is at most 255 less the limit |
| FecSplit.LastFitsExactly | src/stream.cpp:1425-1458 | the last block stays within the limit for every payload exactly when a packet has three bytes or more |
| FecSplit.TinyBlocksOverflow | src/stream.cpp:1440-1458 | sizes for which it does not, with packets of one and of two bytes, at every percentage |
| FecEncode.Encode | src/stream.cpp:649-725 | the payload buffers hold the zero-padded block followed by its parity, shard counts and percentage follow the plan, the layout of shard pointers is valid |
| FecEncode.BuffersAreShards | src/stream.cpp:668-707 | the two payload buffers, cut into blocks, are shards 0..nr_shards-1 in order, and shard pointer x leads to piece x |
| FecEncode.Poke | src/stream.cpp:636-638 | writing through shard pointer x changes that piece of the buffers alone, wherever it lies |
| FecEncode.AnnouncedParity | src/stream.cpp:655-666 | the parity is the larger of the percentage rounded up and the minimum; the returned percentage gives that count exactly unless raising it lost 100 or more, and always up to 100 data shards |
| FecEncode.AnnouncedParityCanDiffer | src/stream.cpp:655-666 | 200 data shards and a minimum of 3: announced 1 percent, which stands for 2 |
| PacketHeaders.FecInfoFields | src/stream.cpp:1540-1543 | shard number, data shard count and percentage can be read back from fecInfo exactly when they fit 10, 10 and 8 bits |
| PacketHeaders.StampPacketFields | src/stream.cpp:1489-1502 | the header writes before encoding stay in the gap; every field they write can be read back |
| PacketHeaders.StampShardFields | src/stream.cpp:1540-1550 | the header writes after encoding stay in the gap, keep the fields written before, and every field they write can be read back |
| PacketHeaders.FrameHeaderRead | src/stream.cpp:1378-1399 | byte by byte: header type 1, latency and last payload length in 16 bits with the low byte first, frame type, two zeros |
| Stamping.StampPackets | src/stream.cpp:1484-1503 | in place, every packet of a block gets its header and nothing outside the block changes |
| Stamping.FinishShard | src/stream.cpp:1537-1550 | in place, shard x gets its header and every other shard and the rest of the frame stay |
| Datagrams.SplitGivesPackets | src/stream.cpp:1405-1460 | cutting the split frame into blocks and these into packets gives the packets of the frame, each with room for a header |
| Receiver.FrameReassembled | src/stream.cpp:1383-1570 | for every frame, however it was split, encoded, stamped and encrypted: the data shards of all blocks in order, headers dropped and the last slice cut to lastPayloadLen, are frame header and payload, exactly if the length of the last slice fits 16 bits; a client that finds the data shards by the announced counts gets the same if all blocks are decodable (see `DecodableExactly`) |
| Receiver.ToldExactly | src/stream.cpp:1540-1543 | the header of a shard tells its number, the data shards, the percentage and, by the parity formula, the shards of its block exactly when the block is decodable and the number is below 1024 |
| Receiver.RaisedMisleads | src/stream.cpp:655-666 | a frame of one packet with FEC at 20 percent and a minimum of 3: the percentage is raised to 300 and spills into the shard number, and a client that goes by the headers takes a parity shard for data |
| Receiver.LongSliceLost | src/stream.cpp:1383-1386 | a frame of a single slice of 65536 bytes announces a last slice of none, and nothing of it is left |
| Receiver.FrameNumbered | src/stream.cpp:1486-1546 | datagram x of a frame carries sequence number lowseq + x modulo 65536 and went out under the IV of that count, over all blocks; if it is a data shard its stream index is that count modulo 2^24, and so agrees with the sequence number |
| Receiver.FrameHeaders | src/stream.cpp:1486-1550 | byte by byte, for every shard of every block of every frame, opened: RTP version and extension bit, sequence number and timestamp, frame number, block number and count; on data shards the stream index, picture data always, start of block exactly on the first, end exactly on the last; with a cipher the frame number is in the prefix too |
| Receiver.InfoBytes | src/stream.cpp:1540-1543 | where it fits, the info field is data shards times 2^22 plus shard number times 2^12 plus percentage times 16 |
| Receiver.DataShardCarries | src/stream.cpp:1486-1546 | a data shard, opened, is its packet's payload with zero padding, and its stream index agrees with its sequence number |
| Receiver.DecodableExactly | src/stream.cpp:655-666 | a block's header fields announce the parity really sent exactly below 1024 data shards and, if the percentage was raised, when it stays below 256 and loses less than 100 |
| Pacing.BurstWithinRate | src/stream.cpp:1573-1590 | a batch that waited for its due time keeps all packets so far within the rate times elapsed time, one nanosecond a frame, the rate less one, and one batch |
| Pacing.FrameEnds | src/stream.cpp:1624-1627 | the start noted for the next frame pays for all packets of the frames before it |
| Pacing.DueExactly | src/stream.cpp:1573-1582 | a packet is due when those before it have taken their share of milliseconds, rounded down to a nanosecond |
| Pacing.RateIsLargest | src/stream.cpp:1463-1464 | the rate is the largest number of packets whose bits a millisecond of 0.8 Gbps holds |
| Pacing.BatchIsLargest | src/stream.cpp:1466-1474 | a batch is the largest number of packets up to 64 that fits into 65536 bytes |
| Pacing.RateIsPositive | src/stream.cpp:1464-1464 | the rate the pacing divides by is at least one exactly up to blocks of 100000 bytes |
| VideoSender.VideoSender.SendFrame | src/stream.cpp:1359-1641 | in any session state: the frame is split with FEC on when it fits, exactly its datagrams go out behind all earlier ones, the header of every shard says byte by byte what it should, as does the frame header, its data shards give header and payload back exactly if the last slice's length fits 16 bits, its headers lead to the same if the blocks are decodable, and the session invariant holds again: every datagram ever sent numbered and encrypted in sequence, the stream index of every data shard ever sent agreeing with its number, all sent in consecutive batches, each within the rate |
| VideoSender.VideoSender.SendBlocks | src/stream.cpp:1476-1641 | all blocks go out in order and lowseq moves on by what went out |
| VideoSender.VideoSender.SendShards | src/stream.cpp:1524-1622 | every shard of the block is finished, encrypted in place and sent once, in batches that leave none out |
| VideoSender.VideoSender.Pace | src/stream.cpp:1573-1590 | before a batch goes out, everything but the pacing group is paid for |
| VideoSender.VideoSender.SendBatch | src/stream.cpp:1592-1615 | the batched send through the payload buffers and the fallback through shard pointers put the same datagrams on the wire |
| VideoSender.VideoSender.EncryptShard | src/stream.cpp:1553-1570 | the shard is replaced by its ciphertext, prefix and counter belong together, no other shard changes |
| VideoSender.VideoSender.constructor | src/stream.cpp:2175-2183 | a new session satisfies the invariant |
| Nonces.IvsDistinctExactlyInRange | src/stream.cpp:445-461 | for every interleaving of video shards, control messages and RTSP replies of the host and of control messages and RTSP requests of the client, all under one key, IVs are pairwise distinct exactly as long as no stream of the host outgrows its counter and no number of the client comes twice on one stream (section 8.2.1 of NIST SP 800-38D) |
| Nonces.RepeatAfterPeriod | src/stream.cpp:453-457 | one message of the host more, or a number of the client a second time, and an IV repeats |
| Nonces.KeyUse.VideoShard | src/stream.cpp:1562-1564 | the IV is that of this shard's number in the run: eight bytes of it with the low one first, zeros, and V |
| Nonces.KeyUse.ControlMessage | src/stream.cpp:445-461 | the IV is that of this message's number in the run: four bytes of it with the low one first, zeros, and H, C |
| Nonces.KeyUse.RtspReply | src/rtsp.cpp:718-722 | the IV is that of this reply's number in the run, the counter moving first: four bytes of it with the low one first, zeros, and H, R |
| Nonces.KeyUse.ClientControlMessage | src/stream.cpp:1058-1085 | a control message of the client is opened under the IV of the number it bears: four bytes of it, zeros, and C, C |
| Nonces.KeyUse.ClientRtspRequest | src/rtsp.cpp:195-216 | an RTSP request of the client is opened under the IV of the number it bears: four bytes of it, zeros, and C, R |
| InputBatch.BatchedExactlyWhenSuperseded | src/input.cpp:1231-1437 | packets that carry a state merge exactly when the later makes the earlier obsolete: same device, buttons, event type, tool, mask or dimensions; and the later one replaces it |
| InputBatch.BatchExactly | src/input.cpp:1208-1478 | in terms of packet fields: exactly which queued packet is passed over, which is taken in, and which ends the batch |
| InputBatch.BatchKeepsDevice | src/input.cpp:1445-1478 | only packets of one device merge, only other devices of the same kind are passed over, other packets end a batch |
| InputBatch.SummedExactlyOnOverflow | src/input.cpp:1208-1278 | movements merge exactly when no sum fits 16 bits, so the sum is never conserved, but always modulo 65536; both amounts of a merged scroll are that sum |
| InputBatch.MergedMoveTurnsRound | src/input.cpp:1208-1224 | two moves to the right that come out as one to the left |
| InputBatch.MergedIsLast | src/input.cpp:1481-1520 | a run of merged states is its last packet and each packet of it makes all earlier ones obsolete |
| InputBatch.MergedConservesDelta | src/input.cpp:1208-1278 | a run of merged movements moves by their total modulo 65536 |
| InputQueue.Input.Passthrough | src/input.cpp:1579-1644 | kind by kind: a packet is accepted exactly if the client may send that input, touch, pen, mouse, keyboard or controller, and one of unknown kind only if it may send all; it is then queued behind all others with one more task; a refused one changes nothing |
| InputQueue.Input.PassthroughNextMessage | src/input.cpp:1481-1520 | what goes out and what stays is what folding the rest of the queue into its first packet gives; everything left before a packet that must not be passed and cannot be taken in may be passed over; the history invariant holds again |
| InputQueue.Input.Drain | src/input.cpp:1639-1643 | running all tasks that were pushed empties the queue |
| InputQueue.DeviceStream | src/input.cpp:1481-1520 | in every reachable state and for every device, the packets accepted are those delivered ones stand for followed by those queued, none lost, doubled or out of order |
| InputQueue.DrainedDevice | src/input.cpp:1481-1520 | after draining, each device that sends states has lost nothing but packets made obsolete by the next one and is left in the state of its last packet; movements agree modulo 65536 |
| InputQueue.NothingOvertakes | src/input.cpp:1481-1520 | in every reachable state: kinds never overtake one another and nothing crosses a packet that cannot be merged; a touch that is neither move nor hover keeps its place among all touches, on a controller among those of the controller and before any of another; a change of the connected controllers, or of the buttons of one, keeps its place, as do pen changes and pointer positions of other dimensions |
| InputQueue.OrderKept | src/input.cpp:1481-1520 | a later packet goes out before an earlier one only if its fields allow it to pass, and together with it only if both are movements of one device or the later makes the earlier obsolete |
| InputQueue.RunMember | src/input.cpp:1471-1477 | a packet that cannot be merged is delivered by itself and unchanged |
| InputQueue.AcceptedIsSomewhere | src/input.cpp:1481-1520 | every accepted packet is queued or part of something delivered |
| DeviceStore.BaseOfFinal | src/nvhttp.cpp:322-333 | the base name of a numbered name is recovered exactly |
| DeviceStore.FinalNameInjective | src/nvhttp.cpp:322-333 | different base names or counts never give the same final name |
| DeviceStore.BaseNameExactly | src/nvhttp.cpp:323-328 | the base name ends before the first blank with an opening bracket behind it, and is the whole name if there is none |
| DeviceStore.DecimalHasValue | src/nvhttp.cpp:330-333 | the number is written in decimal digits without leading zeros |
| DeviceStore.NodesToSave | src/nvhttp.cpp:316-365 | loading what the saving loop makes gives the normalised list: first device per certificate, names counted, permissions masked |
| DeviceStore.NormalizedIsNormal | src/nvhttp.cpp:316-452 | normalising keeps the certificates, makes them and the names distinct, changes nothing but names and permissions of the devices kept: the k-th device of a base name is numbered k from the second on, permissions outside 0x071F1F00 are dropped; and doing it twice is doing it once |
| DeviceStore.NormalizedAppend | src/nvhttp.cpp:316-365 | a device with a new certificate comes last and leaves the others as they would be without it |
| DeviceStore.FirstPerCertIsFirst | src/nvhttp.cpp:320-322 | the device kept for a certificate is the first in the list |
| DeviceStore.Store.SaveState | src/nvhttp.cpp:293-373 | the file then loads as the normalised list; an unreadable file, or one that cannot be opened for writing, is left alone, and one emptied by a failed write is unreadable |
| DeviceStore.Store.LoadState | src/nvhttp.cpp:376-453 | devices and certificate chain are what the file lists, the certificates of the old format first; each value is the one in the file, or for an absent key the empty text, every permission, legacy ordering and client commands on, virtual display off, no commands; an unusable file changes nothing |
| DeviceStore.Store.AddAuthorizedClient | src/nvhttp.cpp:455-473 | the list with the device added, normalised if state is kept; chain, file and list then agree; if the file cannot be opened for writing the new device is lost again, if the write fails later it stays without being in the chain |
| DeviceStore.Store.UnpairClient | src/nvhttp.cpp:3018-3031 | exactly the devices with that uuid are gone, the rest normalised; the result says whether there were any; if the file cannot be opened for writing they come back with it, if the write fails later they stay in the chain |
| DeviceStore.Removed | src/nvhttp.cpp:3018-3031 | the certificates left are exactly those of the devices with another uuid, and no device with that uuid is left |
| DeviceStore.WithoutSplits | src/nvhttp.cpp:3020-3027 | removing goes device by device, so those that stay keep their order |
| Pairing.SessionStep | src/nvhttp.cpp:566-753 | any request or PIN leaves a given session as it is but for name and salt, ends it, or takes it exactly one phase further |
| Pairing.SessionBorn | src/nvhttp.cpp:853-869 | only an opening request makes a session |
| Pairing.EverySessionHasAStory | src/nvhttp.cpp:578-672 | in every run, a session present was opened once and took its phases in order, with a key from the PIN and salt of its first phase, and challenge and client hash from its second and third |
| Pairing.AddedOnlyByPairing | src/nvhttp.cpp:674-753 | in every interleaving, a certificate is added only by a session that passed all four phases once each, in order, under one key, with matching hash and signature; that session is then gone |
| Pairing.AddedWith | src/nvhttp.cpp:710-745 | in every run, a device that joins is the last of the list and has permissions 0x071F1F00 if the list was empty and 0x03000000 otherwise, the uuid drawn for it, the session's name with square brackets for round ones, numbered if state is kept, legacy ordering and client commands on and virtual display off; the others stay, normalised if state is kept |
| Pairing.EveryDevicePaired | src/nvhttp.cpp:674-753 | over a whole run, every certificate not there at the start was added that way |
| Pairing.NothingReused | src/nvhttp.cpp:566-576 | two pairings under one id share nothing: the second was opened after the first ended |
| Pairing.SecretEnds | src/nvhttp.cpp:674-753 | the fourth phase ends the session whatever its outcome |
| Pairing.OutOfTurnEnds | src/nvhttp.cpp:570-679 | a phase asked for out of turn ends the session and adds nobody |
| Pairing.OthersLeaveAlone | src/nvhttp.cpp:823-1039 | requests and PINs for other sessions leave a session untouched |
| Pairing.Unheeded | src/nvhttp.cpp:1050-1105 | a PIN that is not four digits or for no session, and a phase for no session, change nothing |
| Pairing.OpenWaits | src/nvhttp.cpp:853-959 | an opening without a one-time PIN leaves a waiting session with the new salt, or one without if it brought none, which is an error; a session that was there keeps name, certificate and phase |
| Pairing.OtpFromRequest | src/nvhttp.cpp:932-943 | in every run, a one-time PIN is that of the last request with a passphrase of four characters or more, and was neither used nor found older than 180 seconds since |
| Pairing.OtpOpensOnce | src/nvhttp.cpp:918-950 | in every run, a one-time PIN opens once and at most 180 seconds after its request: between two openings with one there is a new request |
| Pairing.NamedBy | src/nvhttp.cpp:853-869 | in every run, a session bears the name last given to it since its opening: the client's, that of the one-time PIN or the one typed with the PIN |
| Pairing.HonestClientCompletes | src/nvhttp.cpp:578-869 | an honest client with the PIN the user types is let in, whatever others do meanwhile, and can verify the server's hash and signed secret, if no session was left over under its id when it opened, or one with its certificate that never got a PIN; one past its first phase makes it be refused, one with another certificate keeps its own from being added; so for a client not paired yet, or whose left-over session has its certificate, the condition is exact |
| Pairing.HonestOtpClientCompletes | src/nvhttp.cpp:578-956 | the same, both ways, for a client that opens with the one-time PIN, which is then used up |
| Pairing.RetryRefused | src/nvhttp.cpp:566-869 | for every honest client, a run in which it breaks off after the PIN, starts again and is refused |
| Pairing.PairingServer.RunGetServerCert | src/nvhttp.cpp:578-600 | phase 1 derives the key from the first 32 characters of the salt and the PIN, or ends the session |
| Pairing.PairingServer.RunClientChallenge | src/nvhttp.cpp:602-643 | phase 2 in the class's own state is the step the runs are made of |
| Pairing.PairingServer.RunServerChallengeResp | src/nvhttp.cpp:645-672 | likewise phase 3 |
| Pairing.PairingServer.RunClientPairingSecret | src/nvhttp.cpp:674-753 | likewise phase 4, with the device added to the store |
| Pairing.PairingServer.Open | src/nvhttp.cpp:853-959 | likewise the opening request: an existing session is kept but takes the new salt, a one-time PIN is used up or a random one takes its place |
| Pairing.PairingServer.EnterPin | src/nvhttp.cpp:1050-1105 | likewise the PIN: four digits, for the session the table yields |
| TaskPool.Tasks.PushDelayed | src/task_pool.h:107-118 | the timer goes before the first one with a smaller deadline, and sorted timers stay sorted |
| TaskPool.Tasks.Delay | src/task_pool.h:157-186 | the result of setting the deadline and one pass of swaps, for timers in any order |
| TaskPool.Tasks.Cancel | src/task_pool.h:188-203 | the first timer with the id is gone, all others as before, and the result says whether there was one |
| TaskPool.Tasks.Pop | src/task_pool.h:219-235 | returns and removes the oldest immediate task, else a due last timer, else nothing |
| TaskPool.Tasks.Ready | src/task_pool.h:237-241 | true exactly when a pop would return a task |
| TaskPool.Tasks.Next | src/task_pool.h:243-251 | the least deadline of sorted timers, none exactly when there are no timers |
| TaskPool.BubbledIsInserted | src/task_pool.h:175-185 | among timers in order, the pass of swaps inserts at the right place |
| TaskPool.DelayedSortedExactly | src/task_pool.h:157-186 | a delay keeps the timers sorted exactly when the new deadline is not before that of the timer behind |
| TaskPool.HastenedIsLost | src/task_pool.h:157-186 | an earlier deadline can leave the soonest timer at the front, where nobody looks |
| TaskPool.PopTakesTheNext | src/task_pool.h:219-235 | immediate tasks first and in order, then a timer that is due, never one before its time; of sorted timers the one of least deadline, and nothing exactly when there is neither |
| TaskPool.OthersStay | src/task_pool.h:107-203 | for timers in any order: inserting adds one, cancelling takes the one away, delaying changes one deadline, and no other timer is touched |
| TaskPool.RunBalances | src/task_pool.h:87-235 | over any run, immediate tasks run are a prefix of those pushed, and timed tasks are one for one run, cancelled or waiting |
| TaskPool.RunsAtMostOnce | src/task_pool.h:188-235 | a timed task runs at most once, and not while it waits |
| TaskPool.CancelledNeverRuns | src/task_pool.h:188-203 | after a cancel that found it, a task never runs, however the run goes on |
| TaskPool.StaysSorted | src/task_pool.h:107-235 | the timers are sorted after every run whose delays only postpone |
| ThreadPool.RunKeepsInv | src/thread_pool.h:51-127 | the invariant on lock, workers, timers and books holds after every interleaving of workers, wake-ups, pushes, delays, cancels and stops |
| ThreadPool.NoTaskForgotten | src/thread_pool.h:51-75 | while the pool runs, a queued immediate task has a worker awake or a notification on its way, and no worker sleeps past the earliest timer |
| ThreadPool.AllRanBeforeStop | src/thread_pool.h:84-127 | once all workers have left, every immediate task pushed before the stop has run, and each task taken has run exactly as often as it was taken |
| ThreadPool.NoDeadlock | src/thread_pool.h:100-127 | after a stop there is always a worker that can go on until all have left |
| ThreadPool.WorkersFinish | src/thread_pool.h:84-127 | after a stop, with nothing pushed any more, the workers leave after a bounded number of steps |
| ThreadPool.WorkersRest | src/thread_pool.h:100-121 | no busy waiting: while nothing is due and no client calls, the workers of a running pool take at most nine steps each before all of them sleep |
| ConfigText.ToString | src/config.cpp:618-631 | the loop copies a text without its comments |
| ConfigText.SkipList | src/config.cpp:633-648 | the loop stops where the recursive definition does |
| ConfigText.ClosingIs | src/config.cpp:633-648 | that is right behind the bracket that closes the list, by bracket depth, or at the end |
| ConfigText.ParseConfig | src/config.cpp:689-714 | on every input the loop ends, with all options read, the first of a name counting |
| ConfigText.SaveConfig | src/confighttp.cpp:1060-1072 | one line per entry that is neither null nor empty |
| ConfigText.RoundTrip | src/config.cpp:650-714 | entries with names and values in the domain are read back exactly |
| ConfigText.HandwrittenFile | src/config.cpp:650-714 | of a file laid out in any way, exactly the names its options set are read, each with the value of the first option that sets it: blank lines, blanks around names and before values, comments and lines that are no options make no difference, a carriage return ends a line together with the character behind it |
| ConfigText.LineRead | src/config.cpp:650-687 | one option, however it is laid out and whatever comes before and behind it |
| ConfigText.KeptExactly | src/confighttp.cpp:1060-1072 | for distinct names, what is read back has each entry written with its own value, and no other |
| ConfigText.FileSurvivesExactly | src/config.cpp:650-714 | a file of entries with distinct names is read back as what was written exactly when the name of every entry written has no equals sign, hash or line end and no blank at its ends, and its value starts solid, has no hash, and is one line or a list that closes at its end |
| ConfigText.SomeEntryLost | src/config.cpp:650-714 | otherwise an entry that was written is missing or has another value |
| ConfigText.SurvivesExactly | src/config.cpp:650-687 | the same for a file of a single entry |
| ConfigText.OpenListSwallows | src/config.cpp:633-687 | a value that is a list nothing closes takes in the rest of the file |
| ConfigText.GoodEntrySwallowed | src/config.cpp:633-687 | two entries of which the second, in the domain by itself, is lost in this way |
| ConfigText.KeysOk | src/config.cpp:650-687 | the parser never returns a name outside that domain |
| EnvExpand.FindMatch | src/process.cpp:859-879 | the loop finds the matching bracket, or reports that there is none |
| EnvExpand.NameFoundExactly | src/process.cpp:859-879 | the name of a reference is found whole exactly when its brackets are balanced |
| EnvExpand.ParseEnvVal | src/process.cpp:881-933 | the loop over dollars computes the recursive expansion, errors included |
| EnvExpand.RenderExpanded | src/process.cpp:881-933 | texts with doubled dollars, single dollars before neither a dollar nor a bracket, and references with balanced names expand to the texts, the dollars and the values, in order; a variable that is not set is empty |
| EnvExpand.DoublingUndone | src/process.cpp:919-923 | doubling every dollar is undone exactly |
| EnvExpand.UnclosedFails | src/process.cpp:859-879 | a reference never closed is an error, whatever is before it |
| EnvExpand.FailsExactly | src/process.cpp:859-933 | expansion of any text is an error exactly when it has a bracket that is never closed behind a dollar with an even number of dollars right before it |
| PrepUndo.Proc.Execute | src/process.cpp:178-560 | ends the app before, then runs what the launch should and, on any failure, undoes what it moved past; the log then says just what `LogExactly` says; returns 0 exactly when display, preps and command succeed, 503 without a display and otherwise -1 |
| PrepUndo.Proc.RunPreps | src/process.cpp:430-464 | stops at the first prep that fails, having run all non-empty ones up to it, and stands right at it |
| PrepUndo.Proc.Terminate | src/process.cpp:704-742 | runs exactly the pending undo commands and leaves none; the log then says just what `LogExactly` says |
| PrepUndo.UndosExactly | src/process.cpp:719-742 | the undo commands of n preps are those that are not empty, each once, last first |
| PrepUndo.DosExactly | src/process.cpp:434-464 | the prep commands run are those that are not empty, each once, in order |
| PrepUndo.EveryLaunchIsWhole | src/process.cpp:178-742 | in every run of launches and ends, what was run followed by what ending the app would run is one launch after the other, each with exactly its undo |
| PrepUndo.LogExactly | src/process.cpp:178-742 | in every run, the log lists launch by launch, each once and in this order: the non-empty preps moved past and the one that failed, then if none failed every detached command and the app's own, and, unless the app is still up, the non-empty undo commands of exactly the preps moved past, last first |
| PrepUndo.NextStartsClean | src/process.cpp:178-185 | before the next app's first command everything before it has been undone |
| PrepUndo.NothingTwice | src/process.cpp:719-742 | in no run is any command of any launch run or undone twice |
| ReorderApps.Reorder | src/confighttp.cpp:736-781 | the two loops compute picks followed by the rest |
| ReorderApps.PickOne | src/confighttp.cpp:752-769 | the first app not yet moved with a uuid is the k-th one with it, k being the earlier requests for it |
| ReorderApps.ReorderedPermutes | src/confighttp.cpp:736-781 | the result is a permutation of the list, duplicate uuids included, whatever the order asks for |
| ReorderApps.KthRequestTakesKthApp | src/confighttp.cpp:742-775 | the k-th request for a uuid puts the k-th app with it behind those of the requests before, when there are that many; otherwise, and for an entry that is no uuid, nothing is put |
| ReorderApps.RestKeepsOrder | src/confighttp.cpp:779-785 | exactly the apps beyond the requests for their uuid follow, in their old order |
| ReorderApps.SameOrderKeeps | src/confighttp.cpp:736-785 | asking for the list as it is, or for nothing, changes nothing |
| ZwPad.PadForOrdering | src/zwpad.h:29-51 | digit by digit, highest first: the bytes of a zero-width space for 0 and of a zero-width non-joiner for 1, then the text; refused exactly for no digits or an index too large |
| ZwPad.WidthWorksExactly | src/zwpad.h:53-60 | no index of a list is refused at the list's width exactly when the list has two entries or more |
| ZwPad.BitWidthLeast | src/zwpad.h:53-60 | the width is the least that holds every index |
| ZwPad.PaddedOrder | src/zwpad.h:25-51 | padded titles compare by index, whatever the texts, and by text only at the same index |
| ZwPad.ReadBack | src/zwpad.h:36-51 | index and text can be read back from a padded title |

## Left out

- VideoSender.VideoSender.SendFrame: covers one session; sessions that share the broadcast thread share one pacing clock, and SPS/VPS replacements are applied to the payload before the model starts.
- VideoSender.VideoSender.SendFrame: blocks of more than 100000 bytes, for which the pacing divides by zero, are excluded, and so are parity minimums that with a full block exceed 255 shards.
- VideoSender.VideoSender.SendFrame: frame type, latency and timestamp are handed in; how they are worked out from the packet is left out.
- VideoSender.VideoSender.SendBlocks: an exception in the middle of a frame, after which the original keeps its old lowseq, is not modelled; nor is the `int` lowseq running over.
- VideoSender.VideoSender.EncryptShard: the encryption header in front of a shard is a value kept beside it, not bytes of the header buffer.
- Nonces.IvsDistinctExactlyInRange: the 16-byte IV of the older control scheme is not covered; the host does not check the numbers the client gives its messages, so that none comes twice is the client's to keep.
- FecEncode.Encode: Reed-Solomon arithmetic is an uninterpreted function, so recovery of lost shards is not claimed.
- InputBatch.SummedExactlyOnOverflow: the sum of movements is not conserved by the code, so conservation is stated modulo 65536.
- InputQueue.Input.PassthroughNextMessage: delivery itself happens after the queue lock is released; order of delivery is the order in which tasks take their packet.
- DeviceStore.Store.LoadState: keys of a wrong type, which throw, are not modelled.
- Pairing.HonestClientCompletes: attended pairing, the PIN read from standard input, pairing switched off and malformed arguments are not modelled.
- Pairing.PairingServer.Open: attended pairing and the PIN read from standard input are not modelled.
- Pairing.PairingServer.RunClientPairingSecret: the state file is taken to be written; what a failed write does is said of the store alone.
- Pairing.PairingServer.EnterPin: writing the name of a session that the failed phase has just erased has no effect in the model; in the original it touches freed memory.
- TaskPool.RunsAtMostOnce: a task id is an address and can come again once its task is gone; the claim is for ids handed in once.
- ThreadPool.RunKeepsInv: delays only postpone; the overload that pushes a timer without waking anybody and a second start are not modelled; reading the stop flag is one step.
- ConfigText.RoundTrip: the file is taken as written; line ends rewritten by the platform are not modelled.
- ConfigText.HandwrittenFile: a list with a comment inside it is not one of the layouts; `ConfigText.ParseConfig` covers every text.
- EnvExpand.ParseEnvVal: the case-insensitive lookup of Windows is not modelled.
- PrepUndo.Proc.Execute: display, virtual display and output name handling between launch and preps is one outcome; resume and pause commands are not modelled.
- ZwPad.PadForOrdering: widths of 64 and more, for which the shift is not defined, are excluded.
- Sockets, ENet, asio, HTTP handlers, TLS, tray, display drivers, audio capture, process spawning and file access: only their outcomes appear.
- Option tables, enum conversions, permission tests and page handlers: branch by branch, nothing to add.
- Taking a single timer out by id, and `uuid_t` parsing and printing.
- Changing the settings of a paired device without pairing again.
