# A verified model of the device cloud's hard core

The repository moves bytes and rows between devices, an MQTT broker and an API.
This project models the parts of it whose correctness depends on interleavings,
on unambiguous wire formats, on durable state machines or on a fast form that
must agree with a simple one, and proves what they promise for every input,
every run and every reachable state.

`dafny verify dfyconfig.toml` checks the whole project.

| module | models |
|---|---|
| `UplinkQueue` | the bounded uplink scheduler with per-device order |
| `OtaHub` | the realtime OTA job stream: delta frames under every interleaving |
| `OtaListeners` | who listens to that stream, told from the events alone, and what such a socket holds |
| `OtaJobs` | that stream over the table of OTA targets |
| `LogHub` | the realtime log stream: slices above a high-water mark |
| `LogListeners` | who listens to it, and exactly which ids a newcomer is sent |
| `MqttFraming` | MQTT frames inside WebSocket messages, read side and write side |
| `MsgBundle` | the structural MessagePack scanner of log bundles |
| `On9logPacket` | the on9log packet parser and its inverse |
| `On9logLayout` | the packet layout at fixed offsets, which the parser reads |
| `CanonicalJson` | the canonical JSON printer |
| `JsonText` | what its text is: strings read back, joined parts, key order, refused values |
| `Render` | the printf/fmt renderer of log messages |
| `RenderValues` | what each conversion and placeholder shows, said from the value |
| `RenderFormats`, `RenderPlaces` | whole conversions and placeholders: written out, read back and rendered |
| `RpcBudget` | the early-exit budget check of RPC values |
| `OtaTargets` | OTA target rows: leases, results, confirmation, sweeps |
| `RefreshTokens` | refresh-token rotation with reuse detection |
| `BatchDecode` | page decoding through a cache of dictionaries that expire |
| `ElfStrings` | the ELF string scanner and lookup by address |

`Bytes`, `BigEndian`, `LittleEndian`, `Numerals`, `Decimal`,
`MapTotals` and `Histories` hold what these share.

How the model is built:

- A protocol is a `State`, a list of events and a `Step`; a theorem about runs is
  about `Run` over an arbitrary event list. Whatever awaits something (a read, a
  timer, a handler) is split into one event per uninterrupted stretch of code, so
  that every interleaving the event loop allows is a run.
- Where the source updates an object in place there is a class with the same
  fields, and each method's contract says that the object's abstract state moves
  exactly as the step function says, and that other jobs or devices are untouched.
- A parser is a reading function with a printing function as its partner; the
  scanning loops are methods proved equal to the reading function.
- A database statement or transaction is one atomic step on a table. Clocks,
  hashes, UTF-8 decoding, float printing and what a read returns are parameters.

Where code and documentation disagree, the code is followed, an input that shows it is given, and the exact
condition under which the documentation is right is proved:

- The delta stream is documented to leave every subscriber with the current
  targets. It does exactly for snapshots that have a target and no device with
  two different fingerprints (`OtaHub.DeltaExact`, with the failing runs
  `OtaHub.ConflictRun` and `OtaHub.EmptyRun`). Jobs made by `createOtaJob` only
  ever yield such snapshots, so over the real table nothing is assumed
  (`OtaJobs.CreatedJobGood`, `OtaJobs.StreamAgrees`).
- The log stream sends contiguous ids as long as ids become visible in order. An
  id that becomes visible late leaves a gap exactly when it falls strictly inside
  what was sent or, with the slice being decoded, is about to be
  (`LogHub.LateIdExact`, with the failing run `LogHub.LateIdRun`).
- The last subscriber of a device is documented to take the mark with it, so that the
  next one starts from a fresh baseline. Leaving does; but a baseline read that
  returns after everyone has left puts a mark back, and the next subscriber is then
  sent what was stored since. A newcomer to a device without subscribers or push can
  be sent older ids exactly if such a mark is there and a stored id is above it
  (`LogListeners.ReplayExact`, with the failing run `LogListeners.OrphanRun`); without
  such a read it never is (`LogListeners.NoReplay`).
- The creation fast path and the firmware confirmation are documented as one rule.
  They are one exactly when the release's artifact reference does not dangle and
  its identity is not the empty string (`OtaTargets.SameRule`).
- Streaming on9log packets other than boot packets ignore bytes after their
  payload; the parser is injective exactly on all other packets
  (`On9logPacket.InjectiveExactly`, `On9logPacket.StreamingNotInjective`).
- Cached dictionaries are documented to be at most 60 s stale. The lifetime starts
  when the query returns, not when it reads, so the bound is 60 s plus one query,
  and 60 s alone exactly when queries take no time (`BatchDecode.StalenessExact`,
  with the stale hit `BatchDecode.StaleHit`).
- Two arrays that differ print to the same canonical JSON in one case: an array of
  one hole and the empty array (`CanonicalJson.LoneHole`).

## Model

| member | source | states |
|---|---|---|
| `UplinkQueue.SchedulerAccounting` | packages/broker/src/mqtt/dispatch.ts:80-147 | over every sequence of offers and completions: running handlers = active devices ≤ concurrency, outstanding = running + queued ≤ capacity, bytes are their sum ≤ maxBytes; the ready list holds, once each, exactly the devices with queued work and no running handler; every slot is taken or nothing is ready |
| `UplinkQueue.PerDeviceOrder` | packages/broker/src/mqtt/dispatch.ts:105-146 | a device's accepted work is, in order, what finished, then at most one running item, then its queue: nothing lost, repeated, overtaken or run beside another |
| `UplinkQueue.DrainShifts` | packages/broker/src/mqtt/dispatch.ts:124-146 | draining removes exactly as many heads of the ready list as there are free slots, so the two `continue` guards never fire |
| `UplinkQueue.DrainStartsHeads` | packages/broker/src/mqtt/dispatch.ts:124-146 | what draining starts is the queue head of each of those devices, in list order |
| `UplinkQueue.WaitsItsTurn` | packages/broker/src/mqtt/dispatch.ts:124-146 | a device at place p moves forward one place per completion and starts nothing before p of them, whatever is offered |
| `UplinkQueue.StartsAtItsTurn` | packages/broker/src/mqtt/dispatch.ts:105-146 | the (p+1)-th completion starts the device that was at place p, with the item that headed its queue |
| `UplinkQueue.UplinkWorkQueue.Offer` | packages/broker/src/mqtt/dispatch.ts:105-122 | accepts exactly within both limits; the new state is the model's step |
| `UplinkQueue.UplinkWorkQueue.DrainReady` | packages/broker/src/mqtt/dispatch.ts:124-146 | the loop computes the model's drain |
| `UplinkQueue.UplinkWorkQueue.StartNext` | packages/broker/src/mqtt/dispatch.ts:126-132 | one pass of the loop, both guards included |
| `UplinkQueue.UplinkWorkQueue.Finish` | packages/broker/src/mqtt/dispatch.ts:133-144 | a completion is the model's step |
| `OtaHub.FingerprintMeaning` | packages/api/src/api/ota-stream.ts:284-291 | fingerprints agree exactly when state, result code and firmware do |
| `OtaHub.RunAgrees` | packages/api/src/api/ota-stream.ts:110-121 | over every run on well-formed snapshots, views carry what the hub recorded and the record covers the last snapshot compared |
| `OtaHub.SubscribersAgree` | packages/api/src/api/ota-stream.ts:178-367 | in every interleaving an open subscriber is owed a full frame or its merged view shows every target of the last compared snapshot |
| `OtaHub.SubscribersExact` | packages/api/src/api/ota-stream.ts:178-367 | and, when the job's devices stay the same, no other targets: the view's devices are exactly those of the snapshot |
| `OtaListeners.ListenersAsTold` | packages/api/src/api/ota-stream.ts:178-214 | in every run a socket is a subscriber if and only if it joined after it was opened and has not left since its last join, and it is open if and only if it was opened and has not closed: both told from the event list alone |
| `OtaListeners.SubscriberHolds` | packages/api/src/api/ota-stream.ts:178-367 | such a socket is owed a full frame or holds exactly the job's devices, each with the columns of the content last compared |
| `OtaListeners.NotificationAnswered` | packages/api/src/api/ota-stream.ts:133-165 | while reads succeed, a notification that a joined, remaining, open socket receives is answered by a comparison of what was stored then or later, or that is on its way |
| `OtaListeners.NotifiedHolds` | packages/api/src/api/ota-stream.ts:133-367 | both together: when nothing is owed or on its way, the socket holds a content at least as new as the notified one |
| `OtaHub.DeltaExact` | packages/api/src/api/ota-stream.ts:318-329 | storing a snapshot leaves views in agreement in every run from the start if and only if it is non-empty and gives no device two fingerprints |
| `OtaHub.ConflictRun` | packages/api/src/api/ota-stream.ts:321-329 | the run that any snapshot with two fingerprints for a device breaks: it is pushed twice |
| `OtaHub.EmptyRun` | packages/api/src/api/ota-stream.ts:318-329 | the run that an empty snapshot breaks: a newcomer's full frame is skipped and counts as sent |
| `OtaJobs.CreatedJobGood` | packages/core/src/ota/deploy.ts:203-282 | every read of a job that any run of the target table created is a snapshot that deltas can handle |
| `OtaJobs.ContentAtGood` | packages/api/src/api/ota-stream.ts:258-282 | whenever it is read, a job shows the same devices |
| `OtaJobs.StreamAgrees` | packages/api/src/api/ota-stream.ts:178-367 | every interleaving of the stream over every run of the table leaves a socket that joined, has not left and is open, told from the events, owed a full frame or with exactly the job's devices as last compared; nothing is assumed of snapshots |
| `OtaHub.NoLostWakeUp` | packages/api/src/api/ota-stream.ts:133-165 | while reads succeed, a notified change has been compared for its subscribers, or a timer is armed, or a follow-up is asked for, or a later read is in flight; snapshots are compared in read order |
| `OtaHub.ScheduleDue` | packages/api/src/api/ota-stream.ts:133-151 | arming sets the timer to exactly the earlier of one window ahead and the burst limit, never before now; the burst's start is the first notification |
| `OtaHub.BurstBounded` | packages/api/src/api/ota-stream.ts:125-151 | with timers fired on time, no timer is due later than first notification + 4 windows |
| `OtaHub.FilterChanged` | packages/api/src/api/ota-stream.ts:320-325 | the changed targets, in order |
| `OtaHub.RecordRows` | packages/api/src/api/ota-stream.ts:327-329 | the record after a push |
| `OtaHub.OtaStreamHub.Join` | packages/api/src/api/ota-stream.ts:179-200 | refused exactly at the connection cap; otherwise subscribed and owed a full frame; other jobs untouched |
| `OtaHub.OtaStreamHub.Leave` | packages/api/src/api/ota-stream.ts:201-214 | removes that socket and no other, and forgets the baseline with the last subscriber |
| `OtaHub.OtaStreamHub.SchedulePush` | packages/api/src/api/ota-stream.ts:133-151 | the job's state moves as the model's scheduling |
| `OtaHub.OtaStreamHub.TimerFired` | packages/api/src/api/ota-stream.ts:145-165 | begins a read exactly when none is in flight and someone listens |
| `OtaHub.OtaStreamHub.PushSettled` | packages/api/src/api/ota-stream.ts:161-164 | the end of a push reschedules exactly when asked to |
| `OtaHub.OtaStreamHub.PushReturned` | packages/api/src/api/ota-stream.ts:318-366 | the frame is the delta against the baseline, and goes to the subscribers of that moment |
| `LogHub.SentIsContiguous` | packages/api/src/api/log-stream.ts:105-141 | in every run with ids visible in order, what a socket was sent since it subscribed is strictly increasing and skips no stored id in between |
| `LogHub.HarmlessIsContiguous` | packages/api/src/api/log-stream.ts:262-352 | the same in every run in which late ids fall inside nothing sent or about to be |
| `LogHub.RunInv` | packages/api/src/api/log-stream.ts:262-352 | flushes never overlap, every socket that was sent something waits at the mark, every log is a run of consecutive stored ids and stays one with the slice being decoded |
| `LogHub.NoLostNotification` | packages/api/src/api/log-stream.ts:130-187 | after a notification, while someone listens and reads succeed, a timer is armed, or a follow-up is asked for, or a later push is on its way; a hub at rest has its mark at or past every event stored before |
| `LogHub.CoveredIsSent` | packages/api/src/api/log-stream.ts:324-350 | a subscriber has been sent every stored event from its first one up to the mark |
| `LogListeners.ListenersAsTold` | packages/api/src/api/log-stream.ts:206-246 | in every run a socket is a subscriber if and only if it joined after it was opened and has not left since, told from the event list alone |
| `LogListeners.NewcomerExact` | packages/api/src/api/log-stream.ts:105-119 | a socket that joins a device with no subscriber and no push in flight is sent, until it leaves, exactly the ids stored above its baseline and up to the mark; the baseline is the largest id the read of it saw |
| `LogListeners.NoReplay` | packages/api/src/api/log-stream.ts:227-239 | in every run without an orphaned baseline read, such a socket is never sent an id stored before it joined |
| `LogListeners.ReplayExact` | packages/api/src/api/log-stream.ts:105-119 | it can be sent an older id in some further run if and only if a mark was left behind and a stored id is above it |
| `LogListeners.MarkLeftByOrphan` | packages/api/src/api/log-stream.ts:227-239 | a mark on a device without subscribers comes from a baseline read that returned after they had left: leaving takes the mark |
| `LogListeners.OrphanRun` | packages/api/src/api/log-stream.ts:105-119 | the run that shows it: a subscriber leaves before its baseline returns, and the next one is sent what was stored in between |
| `LogListeners.NotifiedArrives` | packages/api/src/api/log-stream.ts:130-187 | an id above the newcomer's baseline that is stored and then notified is in that socket's log once the hub is at rest, if the socket stays open and the reads succeed and see it |
| `LogListeners.ScheduleDue` | packages/api/src/api/log-stream.ts:155-187 | a notification arms the timer exactly one debounce ahead, and a batch keeps its start until it is flushed |
| `LogHub.ShortSliceIsLast` | packages/api/src/api/log-stream.ts:292-296 | a slice shorter than the batch ends at the last event the query saw |
| `LogHub.LateIdExact` | packages/api/src/api/log-stream.ts:293-349 | an id that becomes visible late leaves every log without a gap in every further run if and only if it falls strictly inside no log, not inside the slice being decoded and not inside the two joined |
| `LogHub.PendingSendExact` | packages/api/src/api/log-stream.ts:324-349 | the send in flight shows a gap if and only if the id is strictly inside the log joined with the slice |
| `LogHub.LateIdRun` | packages/api/src/api/log-stream.ts:293-349 | a run from the start in which 6 becomes visible while 5 and 7 are being decoded, and is never sent |
| `LogHub.LateIdGap` | packages/api/src/api/log-stream.ts:293-297 | a new id keeps a run of stored ids gapless if and only if it is not strictly inside it |
| `LogHub.BurstBound` | packages/api/src/api/log-stream.ts:155-187 | in every run a timer is armed exactly while a batch waits and is due within 500 ms plus one debounce of its start |
| `LogHub.LogStreamHub.Join` | packages/api/src/api/log-stream.ts:206-226 | refused exactly at the cap; asks for a baseline exactly when there is no mark |
| `LogHub.LogStreamHub.BaselineReturned` | packages/api/src/api/log-stream.ts:105-119 | sets the mark unless a push already did |
| `LogHub.UnsubscribeMeaning` | packages/api/src/api/log-stream.ts:227-246 | leaving removes that socket and no other; with the last one the mark and the timer go, otherwise nothing else changes |
| `LogHub.LogStreamHub.Leave` | packages/api/src/api/log-stream.ts:227-246 | the last subscriber takes mark and timer with it |
| `LogHub.LogStreamHub.FlushDevice` | packages/api/src/api/log-stream.ts:128-146 | begins a push exactly when someone listens and none is in flight, else asks for a follow-up |
| `LogHub.LogStreamHub.SchedulePush` | packages/api/src/api/log-stream.ts:155-187 | the device's state moves as the model's scheduling, including the flush of an overdue batch |
| `LogHub.LogStreamHub.PushSettled` | packages/api/src/api/log-stream.ts:142-145 | the follow-up is scheduled exactly when asked for |
| `LogHub.LogStreamHub.SendEvents` | packages/api/src/api/log-stream.ts:327-349 | each open subscriber gets the slice up to its first failed send, and the mark moves to the slice's end |
| `MqttFraming.ScanMqttFrameLength` | packages/broker/src/mqtt/ws-adapter.ts:66-82 | the loop computes the scan of a fixed header |
| `MqttFraming.ScanMeaning` | packages/broker/src/mqtt/ws-adapter.ts:55-82 | the scan is the Remaining Length of section 2.2.3 of MQTT 3.1.1: frame, malformed and incomplete are each characterised exactly |
| `MqttFraming.ScanOfEncoded` | packages/broker/src/mqtt/ws-adapter.ts:66-82 | every encodable length is read back |
| `MqttFraming.ParseSound` | packages/broker/src/mqtt/ws-adapter.ts:144-160 | frames ++ rest is the input, every frame is complete, and the rest is refused or unfinished |
| `MqttFraming.ParseLongest` | packages/broker/src/mqtt/ws-adapter.ts:144-160 | any list of complete frames at the front is a prefix of the frames found |
| `MqttFraming.ParseExtend` | packages/broker/src/mqtt/ws-adapter.ts:134-160 | parsing what was retained with the next bytes is parsing all bytes |
| `MqttFraming.RetainedBound` | packages/broker/src/mqtt/ws-adapter.ts:162-176 | at most max(4, maxPacketBytes − 1) bytes are retained |
| `MqttFraming.FeedIsParse` | packages/broker/src/mqtt/ws-adapter.ts:116-180 | message by message, the adapter forwards and retains what one parse of the whole stream gives |
| `MqttFraming.SplitIndependence` | packages/broker/src/mqtt/ws-adapter.ts:116-180 | rejection, forwarded and retained bytes do not depend on the split into messages |
| `MqttFraming.ReadSide` | packages/broker/src/mqtt/ws-adapter.ts:116-180 | forwarded ++ retained = received, and forwarded is the longest prefix of complete frames |
| `MqttFraming.RejectionMeaning` | packages/broker/src/mqtt/ws-adapter.ts:148-157 | a stream is rejected if and only if complete frames are followed by a header to refuse |
| `MqttFraming.FramesForwarded` | packages/broker/src/mqtt/ws-adapter.ts:116-180 | frames of the standard's form and of at most maxPacketBytes are forwarded whole, however they are spread over messages |
| `MqttFraming.RejectedExactly` | packages/broker/src/mqtt/ws-adapter.ts:148-157 | a stream is rejected if and only if such frames are followed by a header that declares more than maxPacketBytes or whose length field has a fifth byte |
| `MqttFraming.CutPoint` | packages/broker/src/mqtt/ws-adapter.ts:144-160 | the loop finds the end of the last complete frame, or rejects |
| `MqttFraming.WsConnection.OnMessage` | packages/broker/src/mqtt/ws-adapter.ts:116-180 | the handler does one step of the adapter on its partial buffer |
| `MqttFraming.CoalesceIsParse` | packages/broker/src/mqtt/ws-adapter.ts:219-255 | the write side emits the same frames for any chunking |
| `MqttFraming.FramesEmitted` | packages/broker/src/mqtt/ws-adapter.ts:219-255 | frames of any size come out of the write side as they were written, however they were chunked |
| `MqttFraming.MqttFrameBuffer.Push` | packages/broker/src/mqtt/ws-adapter.ts:228-255 | frames out, buffer left and the throw are those of one parse |
| `MsgBundle.ReadValueSound` | packages/core/src/logging/container.ts:202-326 | what is skipped is one well-formed MessagePack value within the depth, and its encoding is what was consumed |
| `MsgBundle.ReadValueComplete` | packages/core/src/logging/container.ts:202-326 | every well-formed value within the depth is read back, whatever follows |
| `MsgBundle.BundleAccepted` | packages/core/src/logging/container.ts:127-198 | a bundle is accepted if and only if it is an array header declaring 1..4096, that many values nested at most 128 deep and nothing else; elements are the non-empty bin8/bin16 bodies in order and the rest is counted as dropped |
| `MsgBundle.BundleUnambiguous` | packages/core/src/logging/container.ts:127-198 | a bundle has one reading |
| `MsgBundle.BundleErrors` | packages/core/src/logging/container.ts:127-153 | refused as too large if and only if the header declares more than 4096 elements; any other refusal is for malformed bytes |
| `MsgBundle.ContainerMeaning` | packages/core/src/logging/container.ts:64-79 | an upload with byte 0x9a first is delivered whole as one packet, one with 0x01 first is the bundle behind it, and exactly the others have a bad magic |
| `MsgBundle.FormatTable` | packages/core/src/logging/container.ts:202-326 | what follows each kind of first byte, as in the MessagePack specification |
| `MsgBundle.PacketsJoin` | packages/core/src/logging/container.ts:157-194 | the packets of a bundle are those of its elements, in order |
| `MsgBundle.LengthMeaning` | packages/core/src/logging/container.ts:83-125 | length fields are big-endian |
| `MsgBundle.SkipMsgValue` | packages/core/src/logging/container.ts:202-326 | the recursive skipper moves the reader past exactly one value, and terminates whatever counts are declared |
| `MsgBundle.ScanElement` | packages/core/src/logging/container.ts:157-194 | one element: the value is consumed and yields its packet if it has one |
| `MsgBundle.ScanElements` | packages/core/src/logging/container.ts:155-198 | the loop yields elements and dropped for the declared count, or an error |
| `MsgBundle.ParseMsgBundle` | packages/core/src/logging/container.ts:127-198 | the scanner computes the bundle's specification |
| `MsgBundle.ParseLogContainer` | packages/core/src/logging/container.ts:64-79 | dispatch on the magic byte |
| `MsgBundle.Reader.Count` | packages/core/src/logging/container.ts:83-125 | big-endian length fields |
| `On9logPacket.ParseInverse` | packages/core/src/on9log/packet.ts:189-364 | bytes parse to a packet if and only if the packet is valid and the bytes are its print, with a tail only where one is ignored |
| `On9logPacket.PrintParse` | packages/core/src/on9log/packet.ts:217-364 | printing a parsed packet gives the bytes back, for all five kinds, unless it is a streaming one that lets bytes trail |
| `On9logPacket.ParsePrint` | packages/core/src/on9log/packet.ts:217-364 | every valid packet is parsed from its print |
| `On9logLayout.ParseReadsLayout` | packages/core/src/on9log/packet.ts:1-364 | the parser accepts exactly the packets of the documented layout, read at fixed offsets, and gives each field the bytes at its offset |
| `On9logPacket.InjectiveExactly` | packages/core/src/on9log/packet.ts:217-364 | a result comes from one input only if and only if it has a length or is a boot packet |
| `On9logPacket.ParseAlike` | packages/core/src/on9log/packet.ts:217-364 | inputs parse alike exactly when they are the packet's print, or only start with it where more may trail |
| `On9logPacket.StreamingNotInjective` | packages/core/src/on9log/packet.ts:353-364 | two different streaming inputs with one result |
| `On9logPacket.ParseOn9logHeader` | packages/core/src/on9log/packet.ts:189-207 | the reader computes the header's specification |
| `On9logPacket.ReadTypeTable` | packages/core/src/on9log/packet.ts:255-265 | the type table up to the sentinel or the declared count |
| `On9logPacket.DecodeArg` | packages/core/src/on9log/packet.ts:284-311 | one argument of each type |
| `On9logPacket.ReadArguments` | packages/core/src/on9log/packet.ts:266-269 | the arguments in the order of the type table |
| `On9logPacket.ParseLogPacket` | packages/core/src/on9log/packet.ts:249-282 | a log payload |
| `On9logPacket.ParseBufferPacket` | packages/core/src/on9log/packet.ts:334-350 | a buffer payload with its range check |
| `On9logPacket.ParseTimeSyncPacket` | packages/core/src/on9log/packet.ts:323-332 | a time-sync payload |
| `On9logPacket.ParseOn9logPacket` | packages/core/src/on9log/packet.ts:217-247 | the parser computes the packet's specification |
| `CanonicalJson.QuotePrefix` | packages/plugin-rpc-contract/src/index.ts:370-382 | a quoted string ends where it ends: no quoted string continues another |
| `CanonicalJson.SortAscending` | packages/plugin-rpc-contract/src/index.ts:375-378 | keys come out in code-unit order |
| `CanonicalJson.Unambiguous` | packages/plugin-rpc-contract/src/index.ts:370-382 | equal printed prefixes come from values equal up to key order, and leave equal rests |
| `CanonicalJson.SamePrints` | packages/plugin-rpc-contract/src/index.ts:370-382 | values equal up to key order print alike |
| `CanonicalJson.CanonicalIffSame` | packages/plugin-rpc-contract/src/index.ts:370-382 | two values, sparse arrays included, print to the same text if and only if they are equal up to key order, the sign of zero and the lone hole |
| `CanonicalJson.LoneHole` | packages/plugin-rpc-contract/src/index.ts:374-374 | an array prints as the empty one if and only if it is empty or one hole |
| `CanonicalJson.NumberPrinterExists` | packages/plugin-rpc-contract/src/index.ts:373-373 | what is assumed of number printing can be met |
| `JsonText.QuoteReads` | packages/plugin-rpc-contract/src/index.ts:372-372 | a quoted string, read by the rules of section 7 of RFC 8259, gives the string back and ends at its closing quote |
| `JsonText.TokenShape` | packages/plugin-rpc-contract/src/index.ts:372-372 | exactly the seven short escapes, numeric ones for other controls and lone surrogates, and every other unit as it is |
| `JsonText.TextMeaning` | packages/plugin-rpc-contract/src/index.ts:372-378 | arrays and objects are the texts of their parts joined by commas in brackets; an object's entries are in key order, each key, colon and value |
| `JsonText.BeforeIs` | packages/plugin-rpc-contract/src/index.ts:376-376 | that order is decided by the first unit in which two keys differ, or by length |
| `JsonText.ThrowsExactly` | packages/plugin-rpc-contract/src/index.ts:373-379 | the printer throws if and only if a non-finite number or an unsupported value occurs anywhere |
| `Render.RenderFormat` | packages/core/src/on9log/render.ts:45-256 | the scanning loop computes the renderer's specification, for any way of showing one argument, and terminates |
| `RenderFormats.DecimalRenders` | packages/core/src/on9log/render.ts:174-191 | rendering `%d` or `%i` with any flags, width and precision gives the padded text of the signed value, `%u` that of the unsigned one: an independent reader of digits reads the text back to it, with the sign mark the flags ask for |
| `RenderFormats.HexRenders` | packages/core/src/on9log/render.ts:192-197 | the same for `%x` and `%X` in base 16, with case and `0x` or `0X` |
| `RenderFormats.TextRenders` | packages/core/src/on9log/render.ts:207-226 | `%s` gives the string or its first units, `%c` the low byte; an argument of a type that the conversion does not take is refused |
| `RenderFormats.ConversionRenders` | packages/core/src/on9log/render.ts:120-247 | a conversion, its stars taken from the arguments in front, renders its argument in the field asked for, and is refused exactly when a width, precision, argument type or output limit says so |
| `RenderFormats.ConversionReadBack` | packages/core/src/on9log/render.ts:122-178 | a conversion written out from its flags, width, precision and letter is read back to them, and the text after it is left |
| `RenderPlaces.SignedRenders` | packages/core/src/on9log/render.ts:490-496 | rendering `{:d}`, `{:i}`, or `{}` of a 32-bit argument, with any fill, alignment, sign, zeros and width, gives the padded text of the signed value |
| `RenderPlaces.UnsignedRenders` | packages/core/src/on9log/render.ts:496-507 | the same for `{:u}`, `{:x}`, `{:X}`, `{:o}`, `{:b}` and `{:B}`: unsigned, in their base and case, with the alternate prefix |
| `RenderPlaces.PlaceRenders` | packages/core/src/on9log/render.ts:66-101 | a placeholder with literal or nested width and precision renders its argument as specified, and is refused exactly when a limit or the presentation says so |
| `RenderPlaces.IndexRenders` | packages/core/src/on9log/render.ts:66-101 | with an explicit index it shows the argument at that index, and is refused exactly where there is none or it cannot be shown |
| `RenderPlaces.SpecReadBack` | packages/core/src/on9log/render.ts:396-467 | a specification written out from its parts is read back to them |
| `RenderValues.SpellsUnique` | packages/core/src/on9log/render.ts:320-347 | a number has one numeral in a base and case, so the texts below are determined |
| `RenderValues.DecimalConversion` | packages/core/src/on9log/render.ts:320-335 | the text of the decimal conversions in any field |
| `RenderValues.HexConversion` | packages/core/src/on9log/render.ts:337-347 | the text of the hexadecimal conversions in any field |
| `RenderValues.StringConversion` | packages/core/src/on9log/render.ts:212-226 | the string, cut to the precision, in its field; `(null)` for none |
| `RenderValues.CharConversion` | packages/core/src/on9log/render.ts:198-211 | `%c` is the low byte; `%p` is `0x` and at least eight hex digits |
| `RenderValues.FixedConversion` | packages/core/src/on9log/render.ts:349-358 | `%f` is the host's text with six digits or the precision, and a plus if asked for |
| `RenderValues.ExponentialConversion` | packages/core/src/on9log/render.ts:234-243 | `%e` and `%g` are the host's exponential text, upper case for `%E` and `%G` |
| `RenderValues.TakesExactly` | packages/core/src/on9log/render.ts:180-247 | which argument types each printf conversion takes, and that it refuses all others |
| `RenderValues.SignedPlaceholder` | packages/core/src/on9log/render.ts:490-496 | the signed presentations in any specification |
| `RenderValues.UnsignedPlaceholder` | packages/core/src/on9log/render.ts:496-507 | the unsigned presentations in any specification |
| `RenderValues.SmallPlaceholder` | packages/core/src/on9log/render.ts:541-579 | `{}` of a 64-bit argument of magnitude below 2^53 shows its signed value |
| `RenderValues.LargePlaceholder` | packages/core/src/on9log/render.ts:541-579 | and of any other: `nan`, `inf` or `-inf` by its bits, the host's six digits shortened if it is plausible as a float, else its signed value |
| `RenderValues.TextPlaceholder` | packages/core/src/on9log/render.ts:510-514 | `{}` and `{:s}` of a string |
| `RenderValues.PointerPlaceholder` | packages/core/src/on9log/render.ts:515-520 | `{:p}`, and `{}` of a pointer |
| `RenderValues.CharPlaceholder` | packages/core/src/on9log/render.ts:508-509 | `{:c}` is the low byte |
| `RenderValues.FloatPlaceholder` | packages/core/src/on9log/render.ts:521-540 | `{:f}` and `{:e}`: the host's text, a plus if asked for, a dot for the alternate form |
| `RenderValues.GeneralPlaceholder` | packages/core/src/on9log/render.ts:521-540 | `{:g}`: the host's text without trailing zeros and without a bare dot |
| `RenderValues.RefusesExactly` | packages/core/src/on9log/render.ts:490-579 | which arguments a placeholder refuses, and only those |
| `Render.TakesEveryArgument` | packages/core/src/on9log/render.ts:45-256 | output is at most 1,000,000 units; without explicit indices every argument is read exactly once, token by token in order, and in ascending order by printf conversions |
| `Render.TokenReads` | packages/core/src/on9log/render.ts:87-239 | a conversion reads width, precision and value in order; a placeholder is assigned its value first and reads it after its width and precision; nothing else is read |
| `Render.InTurnOnce` | packages/core/src/on9log/render.ts:87-239 | indices read in turn are each read exactly once |
| `Render.RenderConcat` | packages/core/src/on9log/render.ts:45-256 | two formats without explicit indices render joined as they render alone, each on its own arguments |
| `Render.RunAround` | packages/core/src/on9log/render.ts:87-239 | a format's text depends only on the arguments it takes, not on those before or after |
| `Render.EscapeRoundTrip` | packages/core/src/on9log/render.ts:65-120 | doubling %, { and } renders back to the text if and only if it fits the output limit |
| `Render.FieldOf` | packages/core/src/on9log/render.ts:124-170 | every printf width used is at most 4096 and every precision at most 100 |
| `Render.StarWidth` | packages/core/src/on9log/render.ts:136-148 | a 32-bit dynamic width is accepted if and only if its signed magnitude is within the limit; negative means left-justified |
| `Render.ParseFmtSpec` | packages/core/src/on9log/render.ts:396-467 | every fmt width used is at most 4096 and every precision at most 100 |
| `Render.PadMeaning` | packages/core/src/on9log/render.ts:360-375 | padding reaches exactly the width: spaces after the text, zeros after its sign or prefix, or spaces before it, and nothing else |
| `Render.FmtPadMeaning` | packages/core/src/on9log/render.ts:644-664 | the same for fmt: the fill unit after, around or before the text, or zeros after its sign or prefix |
| `Render.FindClosingBrace` | packages/core/src/on9log/render.ts:258-271 | the loop finds the brace that closes at depth 0 |
| `Render.NestedBraceCloses` | packages/core/src/on9log/render.ts:431-456 | a nested placeholder inside one that was found is closed inside it |
| `Render.DisplaySignedMeaning` | packages/core/src/on9log/render.ts:581-594 | signed display is two's complement if and only if the value is outside [2^31, 2^32) |
| `Render.DigitsValue` | packages/core/src/on9log/render.ts:320-335 | decimal text denotes the value printed |
| `RpcBudget.VisitSound` | packages/plugin-rpc-contract/src/index.ts:312-329 | an accepted value unfolds to a finite tree within every limit, and the counters are its totals |
| `RpcBudget.VisitComplete` | packages/plugin-rpc-contract/src/index.ts:312-329 | every such tree is accepted: sharing is never taken for a cycle |
| `RpcBudget.UnfoldsUnique` | packages/plugin-rpc-contract/src/index.ts:324-328 | a value unfolds to at most one tree |
| `RpcBudget.AcceptsIffMeetsBudget` | packages/plugin-rpc-contract/src/index.ts:310-331 | accepted if and only if the graph, cyclic or shared, unfolds to a finite tree that meets all limits |
| `RpcBudget.Checker.VisitValue` | packages/plugin-rpc-contract/src/index.ts:311-329 | the in-place traversal does at most maxNodes + 1 visits and computes the same |
| `RpcBudget.AssertRpcValueBudget` | packages/plugin-rpc-contract/src/index.ts:310-331 | the check as called |
| `OtaTargets.SameRule` | packages/core/src/ota/deploy.ts:170-185 | fast path and confirmation match the same hashes if and only if the artifact reference does not dangle and the identity is not empty |
| `OtaTargets.StepConsistent` | packages/core/src/ota/deploy.ts:255-620 | every statement keeps the table's constraints and moves rows only along the edges of the state graph |
| `OtaTargets.EdgesExact` | packages/core/src/ota/deploy.ts:255-620 | those edges are exactly the moves that some statement makes |
| `OtaTargets.RunConsistent` | packages/core/prisma/migrations/20260804060000_ota_result/migration.sql:9-34 | over every run: a lease expiry exactly in leased, code 0 in completed, negative in failed, none elsewhere |
| `OtaTargets.RunDescends` | packages/core/src/ota/deploy.ts:403-620 | completed, failed and expired rows never change, installed leads only to completed, nothing delivered goes back |
| `OtaTargets.CompletedHasCause` | packages/core/src/ota/deploy.ts:255-283 | every completed target was completed by a report matching the release's identity, or at creation after its device had reported the identity then read |
| `OtaTargets.RowHasCause` | packages/core/src/ota/deploy.ts:255-620 | every row of every run is as some statement of the run left it, and on the row's columns that statement's guard held: window, lease, state, age, release or hash |
| `OtaTargets.ExpireMeaning` | packages/core/src/ota/deploy.ts:318-344 | inside its window, under a live lease, or in a state other than pending and leased a row is unchanged by expiry; past its window, a pending row, or a leased one whose lease is over, ends expired without a lease |
| `OtaTargets.StallMeaning` | packages/core/src/ota/deploy.ts:358-385 | a row delivered less than the window ago, never, or past downloading is unchanged by the stall sweep; any other fails with code -7 |
| `OtaTargets.AckMeaning` | packages/core/src/ota/deploy.ts:539-585 | an acknowledgement changes a row exactly if it names its release and comes in time, and to what |
| `OtaTargets.ConfirmMeaning` | packages/core/src/ota/deploy.ts:600-620 | a report completes exactly the device's delivered to installed rows whose release has that hash |
| `OtaTargets.RunSound` | packages/core/src/ota/deploy.ts:203-282 | over every run every job has a target and no job two for one device |
| `OtaTargets.StaffConstant` | packages/core/src/ota/deploy.ts:272-283 | the targets of a job and their devices never change |
| `OtaTargets.ExpireBatchCompose` | packages/core/src/ota/deploy.ts:318-344 | two expiry batches at one time are one batch |
| `OtaTargets.StallBatchCompose` | packages/core/src/ota/deploy.ts:358-385 | two stall batches at one time are one batch |
| `OtaTargets.SweepIsOneShot` | packages/core/src/ota/deploy.ts:306-385 | sweeping all eligible rows is the one-shot update, leaves none eligible and no live lease touched |
| `OtaTargets.RefusalMeaning` | packages/core/src/ota/deploy.ts:207-247 | a job is accepted for writing if and only if it has 1 to 1000 distinct devices, its release is the project's, and every device exists and is the project's; each error names what is wrong |
| `OtaTargets.Outbox.ExpireOtaTargets` | packages/core/src/ota/deploy.ts:318-344 | the batch loop terminates and equals the one-shot update, for any choice of batches; the count is exact, and every row obeys the expiry rule on its columns |
| `OtaTargets.Outbox.ExpireStalledOtaTargets` | packages/core/src/ota/deploy.ts:358-385 | the same for stalled deliveries, with the stall rule |
| `OtaTargets.Outbox.LeaseNextOtaTarget` | packages/core/src/ota/deploy.ts:403-453 | leases the oldest unlocked row, by creation time and id, that is pending and available or whose lease is over, and that is inside its window; the lease ends at `until`, and nothing is leased only if there is no such row |
| `OtaTargets.Outbox.MarkOtaTargetDelivered` | packages/core/src/ota/deploy.ts:456-464 | a leased target becomes delivered; no other row changes |
| `OtaTargets.Outbox.ReleaseOtaTarget` | packages/core/src/ota/deploy.ts:467-480 | a leased target becomes pending again, available after the retry time; no other row changes |
| `OtaTargets.Outbox.MarkOtaTargetDelivering` | packages/core/src/ota/deploy.ts:499-514 | the device's delivered targets in the job start downloading; the count is exact, and 0 for an unknown device |
| `OtaTargets.Outbox.RecordOtaResult` | packages/core/src/ota/deploy.ts:539-585 | the acknowledgement changes at most the job's target for the device, if the release matches and the state accepts it; the count says whether it did |
| `OtaTargets.Outbox.ConfirmOtaTargetByFirmware` | packages/core/src/ota/deploy.ts:600-620 | completes exactly the device's delivered targets whose release has the hash; the count is exact |
| `OtaTargets.Outbox.CreateOtaJob` | packages/core/src/ota/deploy.ts:203-304 | whatever others do between its reads and its transaction: refused with the right error and nothing written, or one target per device, completed exactly for devices found to run the release |
| `RefreshTokens.OneSuccessor` | packages/core/src/auth/tokens.ts:173-227 | over every run no token has two successors, and a replaced token is revoked |
| `RefreshTokens.RevokedForever` | packages/core/src/auth/tokens.ts:173-255 | a revoked row never changes again |
| `RefreshTokens.RotatesOnce` | packages/core/src/auth/tokens.ts:173-227 | a rotated token reports reuse or expiry ever after |
| `RefreshTokens.RotationConserves` | packages/core/src/auth/tokens.ts:173-227 | a rotation swaps exactly one active token of its user and keeps the count; other users are untouched |
| `RefreshTokens.ReuseRevokesAll` | packages/core/src/auth/tokens.ts:244-255 | reuse leaves the user without an active token; other users are untouched |
| `RefreshTokens.LockedOut` | packages/core/src/auth/tokens.ts:173-255 | and without a new login the user stays so: nothing rotates any more |
| `RefreshTokens.RotationExact` | packages/core/src/auth/tokens.ts:173-227 | after any history a rotation succeeds if and only if the token was issued, or granted by a rotation, with a lifetime not before now, has not been rotated, logged out, tried after its lifetime or swept by a reuse, and the new hash is free; expiry, reuse and unknown are told apart exactly |
| `RefreshTokens.TableAsTold` | packages/core/src/auth/tokens.ts:148-255 | over every run each row's owner, lifetime and revocation are what the history of events tells |
| `RefreshTokens.SuccessorHasCause` | packages/core/src/auth/tokens.ts:205-214 | a successor comes from a rotation within its parent's lifetime and has the lifetime that rotation gave it |
| `RefreshTokens.TokenStore.RotateRefreshToken` | packages/core/src/auth/tokens.ts:173-227 | the transaction computes the step and its outcome, which the history determines |
| `RefreshTokens.TokenStore.IssueRefreshToken` | packages/core/src/auth/tokens.ts:148-162 | the insert |
| `RefreshTokens.TokenStore.RevokeRefreshToken` | packages/core/src/auth/tokens.ts:230-238 | logout |
| `RefreshTokens.TokenStore.RevokeAllForUser` | packages/core/src/auth/tokens.ts:250-255 | revocation of a user's active tokens |
| `BatchDecode.KeyInjective` | packages/core/src/logging/decode.ts:176-179 | a cache key names one kind and one address |
| `BatchDecode.DictionaryLookup` | packages/core/src/logging/decode.ts:176-218 | a lookup in the loaded dictionary is the row lookup of the single-event path |
| `BatchDecode.EventMeaning` | packages/core/src/logging/decode.ts:40-103 | a log event's tag is the value of the artifact's tag row at its tag address and its message renders the format row at its format address with the packet's arguments; without either row nothing is shown, and the tag alone if the packet does not parse |
| `BatchDecode.EvictionOrder` | packages/core/src/logging/decode.ts:182-192 | up to 200 entries nothing is evicted; beyond, every expired entry goes, as many others stay as fit, and an entry goes only if every unexpired one cached before it goes |
| `BatchDecode.PutMeaning` | packages/core/src/logging/decode.ts:181-181 | storing replaces the artifact's entry where it stands, or appends |
| `BatchDecode.ArtifactsOnce` | packages/core/src/logging/decode.ts:164-166 | a page fetches each artifact its events name once, and no other |
| `BatchDecode.EvictedKeeps` | packages/core/src/logging/decode.ts:182-192 | eviction ends within 200 entries, only removes, and keeps every unexpired entry if those fit |
| `BatchDecode.StoreKeeps` | packages/core/src/logging/decode.ts:180-192 | storing and evicting keep the cache genuine |
| `BatchDecode.SteadyTable` | packages/core/src/logging/decode.ts:40-103 | if the dictionary did not change during the window, every position is exactly what decoding its event alone gives |
| `BatchDecode.FetchKeeps` | packages/core/src/logging/decode.ts:168-194 | a dictionary obtained was read at most the lifetime plus one query ago, whatever other calls did to the cache, and the cache stays valid |
| `BatchDecode.EntryStaleness` | packages/core/src/logging/decode.ts:168-180 | an entry is served only within one lifetime of its reading if and only if its query took no time |
| `BatchDecode.StalenessExact` | packages/core/src/logging/decode.ts:135-153 | every cache serves dictionaries at most 60 s old if and only if queries take no time |
| `BatchDecode.StaleHit` | packages/core/src/logging/decode.ts:168-180 | for any latency, a load and a later hit that serves a dictionary 60 s plus that latency after it was read, when the table had changed |
| `BatchDecode.FetchAllHas` | packages/core/src/logging/decode.ts:167-195 | a page has all its dictionaries unless its last query failed |
| `BatchDecode.LoadDictionary` | packages/core/src/logging/decode.ts:176-179 | the loop builds the dictionary of the rows |
| `BatchDecode.DecodeOne` | packages/core/src/logging/decode.ts:198-225 | one event against a dictionary gives what the single-event path gives at the dictionary's moment |
| `BatchDecode.DictionaryCache.Obtain` | packages/core/src/logging/decode.ts:168-194 | cache hit, failed query, or load with store and eviction, as specified |
| `BatchDecode.DictionaryCache.DecodeEventsBatch` | packages/core/src/logging/decode.ts:159-228 | fails exactly if one of its queries does; otherwise, position by position, what decoding each event alone gives at a moment of the window; the cache ends within 200 entries |
| `ElfStrings.BoundsExact` | packages/core/src/elf/parser.ts:276-278 | bounds computed in floating point are right inside the file |
| `ElfStrings.RunsExact` | packages/core/src/elf/parser.ts:280-292 | the scan finds exactly the maximal runs without a NUL, in order |
| `ElfStrings.SectionStringsExact` | packages/core/src/elf/parser.ts:269-297 | a section's strings are exactly its maximal runs that decode to non-empty plausible text, a tail only at end of file |
| `ElfStrings.StringsMeaning` | packages/core/src/elf/parser.ts:269-310 | the same on the bytes alone: bounds, NULs, tail rule and the characters allowed |
| `ElfStrings.ExtractStrings` | packages/core/src/elf/parser.ts:269-297 | the loop returns those strings with their addresses, in address order |
| `ElfStrings.IsLikelyText` | packages/core/src/elf/parser.ts:299-310 | the plausibility filter |
| `ElfStrings.ReadBounded` | packages/core/src/elf/parser.ts:346-360 | the bounded read of a terminated, plausible text |
| `ElfStrings.ReadStringAtVaddr` | packages/core/src/elf/parser.ts:323-344 | the lookup resolves load segments first, then allocated sections |
| `ElfStrings.LookupAgrees` | packages/core/src/elf/parser.ts:312-360 | where an address stands for an entry's bytes, the lookup returns the entry if and only if it ends inside the range and the length limit |
| `ElfStrings.DictionaryAgrees` | packages/core/src/elf/parser.ts:269-344 | a terminated entry outside every load segment and earlier allocated section is returned at its address if and only if it is shorter than the limit, for addresses below 2^53 |
| `ElfStrings.ResolveMeaning` | packages/core/src/elf/parser.ts:323-344 | an address stands for the file position at the same distance from the start of the first load segment that holds it, else of the first allocated section that does, else for none |
| `ElfStrings.LoadAgrees` | packages/core/src/elf/parser.ts:269-344 | a terminated entry in a load segment that places it where its section does is returned at its address if and only if it ends inside the segment's bytes and is shorter than the limit |
| `ElfStrings.BoundedMeaning` | packages/core/src/elf/parser.ts:346-360 | what is read at a position is the bytes up to the first NUL below the bound, if there is one and they decode to allowed characters |
| `ElfStrings.BoundedOutside` | packages/core/src/elf/parser.ts:346-360 | from a position at or behind the bound the read gives the empty text or none, exactly as the byte before the bound decides |

## Left out

- `close()` of both hubs, the `pg` listener with its reconnects, and frames dropped by WebSocket backpressure.
- The `summary` and derived job state in OTA frames: computed from the snapshot at hand, without history.
- A failing send in the OTA hub: the socket is taken to be closed in that step.
- The command and status streams: the first is the OTA hub without deltas, the second orders nothing.
- OtaTargets.Outbox.LeaseNextOtaTarget: no exclusive ownership across an expired lease is claimed, since delivery and release are keyed by state alone.
- OTA download tokens, JWT signing and verification, SHA-256 and Argon2: a refresh token is its hash.
- CanonicalJson.CanonicalIffSame: cyclic values, which overflow the stack, are not modelled.
- RpcBudget.AcceptsIffMeetsBudget: a Blob and a binary buffer are one kind of leaf; they count alike.
- BatchDecode.DictionaryCache.DecodeEventsBatch: the renderer is an arbitrary function here, not `Render.Render`.
- Render.RenderFormat: float printing, UTF-8 decoding and number parsing are parameters, and all errors are one error.
- RenderPlaces.PlaceRenders: a fill that is a brace, which the source accepts only where the braces balance, is not covered.
- The ELF header parser, big-endian included, and the section-name lookup: bounds checks and field reads.
- `sequenceGap`, `elapsedMs` and `summarizeArgs`: one-line arithmetic or a projection of the parser.
- The rollout code, which also writes OTA targets: it creates jobs of its own and fails installed targets that do not come up.
- The command queue, rate limits, topic parsing, the plugin manager, HTTP routes, configuration and the web interface.
