# Verified model of a network capture tool

The system captures the TCP streams of a Windows machine in a kernel driver, hands them to
an application through a shared ring buffer, and shows them there as HTTP messages, decrypted
where TLS secrets are known. This project models its hard core in Dafny and proves what the
design and the comments in the code promise about it. `dafny verify dfyconfig.toml` checks
everything.

Five parts, each a few modules:

* **The capture ring** (`RingProtocol`, `RingSystem`, `RingSafety`, `RingFifo`, `RingQueue`,
  `RingAccounts`, `SharedRing`): one producer in the kernel, one consumer in the application, one
  byte array.
  `RingSystem` is a step system in which every byte store, every publication and every poll
  iteration is a step of its own, so the theorems quantify over all interleavings. A run is
  `Honest` when only poll writes `readPos`; `RingSafety` also covers runs in which anything
  does. `SharedRing` holds the code in imperative form and connects it to the step system.
* **The capture model** (`StreamCapture`, `Callouts`, `FlowModel`, `FlowHistory`, `Pipeline`): the
  driver's chunk loop, any number of callouts running it at once, the application's `KndModel`,
  every field of a flow in terms of the records that named it, and the end-to-end statement
  about bytes.
* **The rectangle packer** (`Skyline`, `SkylineSearch`, `SkylinePacking`, `SkylineReach`,
  `SkylineSupply`, `SkylinePacker`): the skyline as a height function, the two searches, packing
  over whole runs, which skylines a run reaches, the node supply, and the code over two lists
  linked through arrays.
* **The HTTP/1.x parser** (`HttpText`, `HttpMessages`, `HttpStability`, `HttpWire`,
  `HttpRoundTrip`, `HttpCut`, `HttpAccepts`, `HttpParser`): the parser as a function of the captured
  bytes, which bytes it takes for a message, what happens to its result as the capture grows or
  is cut short, and that it undoes serialisation.
* **The TLS 1.2 decoder** (`TlsKeyLog`, `TlsPrf`, `TlsRecords`, `TlsDecrypt`, `TlsFlow`): HMAC and the
  AEAD cipher are parameters; their laws (output length, opening inverts sealing) are
  preconditions of the theorems that need them.

`InspectorCache` models the inspector's parse cache over runs of the application, and `Inspector`
joins all five parts, the way the inspector window does: what is sent over a connection, in
the clear or inside TLS, is shown as it was sent.

Every lemma switches automatic induction off, so each inductive step is written out.

## Where the code does not do what its documentation says

* The packer's header promises that, unless told otherwise, it quantises widths so that the
  nodes never run out. The search rounds a local copy of the width; the pack step uses the
  width itself. With fewer nodes than columns, unit squares exhaust the nodes while there
  is still room (`SkylineSupply.UnitRefused`), and the supply lasts over all runs if and only if
  there is a node per column (`SkylineSupply.SupplyNeverRunsOutIff`).
* The HTTP parser reads one line after the last chunk. A message with trailers is read to its
  end if and only if it has at most one (`HttpRoundTrip.TrailersReadIff`).
* A chunked message cut by the end of the capture is marked as truncated if and only if the body
  cap left something out, or the cut is in no chunk's data and before the end of the last chunk's
  line (`HttpCut.CutTruncatedIff`); so bytes are missing without a mark exactly when it is in a
  chunk's data and below the cap (`HttpCut.UnmarkedIff`, and `HttpCut.HelloCut` for an example).
  With a Content-Length the mark is exact (`HttpStability.SizedTruncatedIff`).
* The inspector keeps its parse until the flow's id or payload sizes change. Clearing the capture
  does not reset it, so after a clear the same flow can receive other bytes, as many, under the
  old parse (`InspectorCache.StaleOnFlowSeven`, `Inspector.StaleMessages`). Equal sizes mean equal
  bytes, for all that may happen between two draws, if and only if the capture cannot be cleared
  between them or the flow had no payload at the first (`InspectorCache.CacheFreshIff`).

## What looks wrong and is not

* `find_min_y` would count waste left of a window whose left edge is inside a node at height 0 with a
  raised node to its right (`Skyline.WasteExactIff`). No run of the packer reaches such a skyline
  (`SkylineReach.RunGround`), so the figure is always the area wasted
  (`SkylineReach.WasteAlwaysExact`).
* The truncation flag of a captured stream would also be set by an empty DATA record that meets a
  full buffer (`FlowModel.EmptyMarksFull`). The driver never sends one, and for records that carry
  data the flag is exact (`FlowModel.TruncatedIffLost`).

## Model

| member | source | states |
|---|---|---|
| `RingProtocol.SizeRule` | driver/ring.c:16-19 | The size test accepts exactly the powers of two from 64 KiB up, all of them multiples of the record alignment |
| `RingProtocol.MaskedPosition` | driver/ring.c:114-136 | Masking a 64-bit position with size - 1 gives its offset, for every accepted size |
| `RingProtocol.HeaderReadsBack` | common/knd_protocol.h:139-145 | A record header stored in memory is read back field by field from its bytes |
| `RingProtocol.PlacedFits` | driver/ring.c:135-159 | Every accepted write fits in the free space and leaves room for a header or none at all, whatever readPos was sampled, although absorption is not applied after a pad |
| `RingProtocol.PlacedIff` | driver/ring.c:128-159 | A record is placed if and only if some pad and length fit between the positions, whatever readPos was sampled |
| `RingProtocol.PlanIsLeast` | driver/ring.c:139-154 | No placement takes less than the one chosen, nor less than what a dropped record is charged |
| `RingSafety.FitsAtRests` | driver/ring.c:139-152 | After every write the space before the end of the buffer is again a multiple of 8 and at least 24 |
| `RingProtocol.PlanStaysIn32Bits` | driver/ring.c:102-154 | No 32-bit offset, length or total overflows for any ring up to 2 GiB |
| `RingProtocol.EmptyRingAccepts` | driver/ring.c:132-159 | An empty ring takes a record at every offset if and only if it is at most half the ring |
| `RingSafety.SafeRun` | driver/ring.c:118-202 | Alignment, room for a header, bounds and monotonicity of the producer hold along every run, also with arbitrary readPos |
| `RingSafety.HostileConsumer` | driver/ring.c:121-131 | In every run with arbitrary values of readPos no store leaves the data area, a WRAP header always fits and WritePos never decreases |
| `RingFifo.InvRun` | driver/ring.c:113-208 | The ring invariant (positions, memory holding every unread record, poll's progress, counters) holds in every reachable state |
| `RingQueue.FifoQueue` | driver/ring.c:116-208 | In every reachable state the records delivered followed by those found between poll's position and writePos are the accepted calls, in order, once each, with their bytes; poll never resyncs |
| `RingQueue.DrainDelivers` | app/src/knd_client.cpp:132-159 | Once everything published is polled, exactly the accepted calls have been delivered |
| `RingQueue.Tiling` | common/knd_protocol.h:19-22 | [readPos, writePos) always splits into whole aligned records none of which straddles the end of the buffer, and poll's position and end are boundaries |
| `RingQueue.NoLostBytes` | driver/ring.c:116-202 | No step of either side changes an unread byte, even with a stale readPos, and the positions stay ordered |
| `RingQueue.Accounting` | driver/ring.c:104-205 | Calls are accepted or dropped, the counters match, and the k-th record written, pads included, has sequence number k |
| `RingAccounts.DropAccounting` | driver/ring.c:104-160 | In every run, also with arbitrary readPos, each call was accepted, is being written or was dropped; droppedRecords counts the dropped calls and droppedBytes is the sum of what they asked for, the aligned record or record and pad |
| `RingAccounts.DroppedIffHopeless` | driver/ring.c:104-159 | In every run, also with arbitrary readPos, a call is dropped if and only if nothing fits when it is made; every other one starts to store its record |
| `RingAccounts.DroppedCount` | driver/ring.c:105-159 | droppedRecords is the number of such calls |
| `RingAccounts.SequenceSeen` | driver/ring.c:161-205 | The sequence numbers a consumer reads from the delivered records go up by one, or by two exactly where a pad was written between two records, modulo 2^64 from 1 |
| `RingQueue.DrainedRingAccepts` | driver/ring.c:132-159 | After a full drain a record of at most half the ring is accepted wherever the producer stands |
| `SharedRing.RingBuffer.constructor` | driver/ring.c:14-56 | A new ring is empty, zeroed and valid for every accepted size |
| `SharedRing.RingBuffer.Write` | driver/ring.c:83-209 | The new ring state is AfterWrite of the old one, and the record is accepted if and only if some placement of it fits |
| `SharedRing.RingBuffer.Poll` | app/src/knd_client.cpp:126-160 | Poll delivers what walking memory from readPos to writePos finds, publishes where the walk ends, and changes nothing else |
| `SharedRing.CallIsRun` | driver/ring.c:116-208 | One uninterrupted call in the step system has exactly the effect the code has |
| `SharedRing.PollIsRun` | app/src/knd_client.cpp:132-159 | One uninterrupted poll in the step system has exactly the effect the code has |
| `StreamCapture.ChunksRejoin` | driver/wfp.c:227-241 | Cutting an indication into chunks loses and reorders nothing |
| `StreamCapture.ChunkSizes` | driver/wfp.c:228-233 | Every chunk but the last has 64 KiB, and none is empty |
| `StreamCapture.HeaderReads` | common/knd_protocol.h:167-180 | The data header the driver writes is what the application reads: flow, direction and length |
| `StreamCapture.CaptureStream` | driver/wfp.c:214-241 | The loop writes one DATA record per chunk of the copied bytes, in order, each flagged exactly if the indication was cut |
| `Callouts.LoopChunks` | driver/wfp.c:227-241 | The requests of one callout carry its chunks for its own flow and direction, and nothing for any other |
| `Callouts.AnyInterleaving` | driver/wfp.c:214-241 | However the requests of any number of callouts interleave, in order within each flow and direction, they carry for every stream the chunks of its indications, in order, and nothing else |
| `FlowModel.KndModel.Clear` | app/src/app_model.cpp:107-114 | The model is empty again, the caps are kept |
| `FlowModel.KndModel.Find` | app/src/app_model.cpp:101-105 | The flow of that id if there is one, and nothing only if no flow has it |
| `FlowModel.KndModel.GetOrCreate` | app/src/app_model.cpp:86-99 | The flow of that id, made if absent; the index stays a bijection |
| `FlowModel.KndModel.PushPacket` | app/src/app_model.cpp:116-152 | One numbered entry with a preview of at most 64 bytes is logged and the oldest is dropped over the cap |
| `FlowModel.KndModel.IngestRecord` | app/src/app_model.cpp:154-233 | The new model is Ingest of the old one, for every record type |
| `FlowModel.IngestKeepsValid` | app/src/app_model.cpp:86-99 | Ingesting any record keeps the index a bijection onto the flows |
| `FlowModel.PayloadIsPrefix` | app/src/app_model.cpp:207-216 | After any run a flow's payload is exactly the first payloadCap bytes of its data in that direction |
| `FlowModel.TruncatedIff` | app/src/app_model.cpp:207-216 | The truncation flag is set if and only if bytes were lost or a record met a full buffer |
| `FlowModel.TruncatedIffLost` | app/src/app_model.cpp:207-216 | For records that carry data the flag tells exactly whether bytes were lost |
| `FlowModel.EmptyMarksFull` | app/src/app_model.cpp:207-216 | An empty record that meets a buffer filled to its cap sets the flag although all bytes are held |
| `FlowModel.TruncatedByNothing` | app/src/app_model.cpp:207-216 | An instance: one byte at a cap of one, then an empty record |
| `FlowModel.LogIsSuffix` | app/src/app_model.cpp:116-152 | The packet log is the last packetCap entries of the whole history |
| `FlowModel.LogNumbers` | app/src/app_model.cpp:116-120 | Log entries are numbered 1, 2, 3, ... |
| `FlowModel.StatsAgree` | app/src/app_model.cpp:156-228 | Record count, bytes per direction, payloadBytes = inBytes + outBytes and the histogram sum agree with the history |
| `FlowHistory.RecordsCounted` | app/src/app_model.cpp:204-204 | A flow's record count is the number of DATA records that name it |
| `FlowHistory.ClosedIff` | app/src/app_model.cpp:188-188 | A flow is closed if and only if a CONN_CLOSE names it |
| `FlowHistory.LastTime` | app/src/app_model.cpp:173-205 | lastTs is the time of the last record of the flow |
| `FlowHistory.FirstTime` | app/src/app_model.cpp:172-172 | firstTs is the time of the first CONN_OPEN of the flow whose time is not 0 |
| `FlowHistory.ConnReads` | common/knd_protocol.h:149-165 | Every field of a connection payload is read where it is written |
| `FlowHistory.ConnIsLast` | app/src/app_model.cpp:164-171 | The connection facts of a flow are those of its last CONN_OPEN |
| `FlowHistory.BytesCounted` | app/src/app_model.cpp:189-203 | Per direction the byte count is what the last CONN_CLOSE gave, if any, and the data since |
| `FlowHistory.OpenBytes` | app/src/app_model.cpp:203-203 | A flow never closed has counted exactly its inbound and its outbound data |
| `FlowHistory.StatsCounted` | app/src/app_model.cpp:156-228 | Each counter counts the records of its type, each histogram bucket the DATA records of its size range |
| `FlowHistory.LogGrows` | app/src/app_model.cpp:116-152 | Each record of the three types adds one log entry with its time, flow, type, direction, length and first 64 bytes |
| `FlowModel.FlowsAreNamed` | app/src/app_model.cpp:86-99 | A flow is known exactly when some record names it |
| `Pipeline.StreamIsRequested` | app/src/app_model.cpp:197-216 | The data the model sees of a flow is the concatenation of the chunks the driver requested for it |
| `Pipeline.CapturedIsAccepted` | driver/ring.c:83-209 | After a drain the payload is the capped concatenation of the accepted chunks, dropped ones left out |
| `Pipeline.LosslessKeepsAll` | driver/ring.c:104-208 | A stream none of whose chunks was dropped has all of them accepted, in the order of the calls |
| `Pipeline.EndToEnd` | driver/wfp.c:214-241 | For any run whose ring calls are made by callouts running the chunk loop, interleaved in any way, and any stream whose callouts are done and lost no record: after a drain its payload is the first payloadCap bytes of the concatenation of its copied indications, and the flag tells whether there were more |
| `Pipeline.EndToEndNoDrops` | driver/wfp.c:214-241 | The same whenever the ring's drop counter is zero |
| `Skyline.TopIsMaximum` | external/imgui/imstb_rectpack.h:291-345 | The top of a window is at least every height in it and attained by one |
| `Skyline.MinYIsTop` | external/imgui/imstb_rectpack.h:291-345 | find_min_y returns the greatest skyline height over its window |
| `Skyline.WasteExactIff` | external/imgui/imstb_rectpack.h:306-343 | Its waste is the wasted area for every window at x0 if and only if x0 starts a node, or the node under it is above ground, or nothing to its right is; every skyline a run reaches meets this at every x0 |
| `Skyline.SlideLeft` | external/imgui/imstb_rectpack.h:393-414 | Moving a window left to the start of its node never raises it |
| `SkylineSearch.SearchIsSound` | external/imgui/imstb_rectpack.h:347-446 | Either search returns a position inside the target that rests on the skyline |
| `SkylineSearch.BottomLeftOptimal` | external/imgui/imstb_rectpack.h:364-391 | Bottom-left search returns the lowest, then leftmost, position over all integer columns |
| `SkylineSearch.BestFitOptimal` | external/imgui/imstb_rectpack.h:373-443 | Best-fit search finds, among the windows that start or end at a node and fit, the first in the order height, waste as find_min_y reports it, column; none at any column rests lower |
| `SkylineReach.RunGround` | external/imgui/imstb_rectpack.h:347-526 | After any run, with any settings, only the last node before the sentinel can be on the ground |
| `SkylineReach.WasteAlwaysExact` | external/imgui/imstb_rectpack.h:291-345 | On every skyline a run reaches the waste of find_min_y is the wasted area, for every window |
| `SkylineReach.BestFitLeast` | external/imgui/imstb_rectpack.h:373-443 | With the ground last, best-fit search finds the first window in the order height, wasted area, column, over all integer columns |
| `SkylineReach.BestFitWastesLeast` | external/imgui/imstb_rectpack.h:347-446 | So it does on every skyline a run reaches |
| `SkylineSearch.FindsIffFits` | external/imgui/imstb_rectpack.h:347-459 | With either heuristic the result fits under the height if and only if some position does |
| `SkylinePacking.PlaceHeights` | external/imgui/imstb_rectpack.h:464-499 | Splicing changes the height function only over the rectangle and the gap it closes, to its top edge |
| `SkylinePacking.PlaceKeepsShape` | external/imgui/imstb_rectpack.h:464-523 | The skyline stays strictly increasing and ends at the sentinel |
| `SkylinePacking.PackRaises` | external/imgui/imstb_rectpack.h:449-526 | A successful pack raises the heights over the rectangle to its top and leaves the rest; a failed one changes nothing |
| `SkylinePacking.PackedIff` | external/imgui/imstb_rectpack.h:449-476 | A rectangle is packed if and only if a free node is left and some position at any column has the height |
| `SkylinePacking.PackingIsSound` | external/imgui/imstb_rectpack.h:546-584 | Over any run of calls and settings all packed rectangles are inside the target and pairwise disjoint |
| `SkylinePacking.DefaultAlignBounds` | external/imgui/imstb_rectpack.h:245-262 | The default rounding is at least 1, is 1 with a node per column, and otherwise at most width - num_nodes + 1 |
| `SkylinePacking.DefaultAlignLeast` | external/imgui/imstb_rectpack.h:252-261 | The default rounding is the least with which num_nodes windows cover the width |
| `SkylineSupply.SupplyLasts` | external/imgui/imstb_rectpack.h:145-150 | With a node per column a free node is left after any run |
| `SkylineSupply.SupplyNeverRunsOutIff` | external/imgui/imstb_rectpack.h:145-150 | A free node is left after every run if and only if num_nodes is at least the width |
| `SkylineSupply.UnitRefused` | external/imgui/imstb_rectpack.h:252-261 | With fewer nodes, and the default rounding, a unit square that has a place is refused |
| `SkylinePacker.Packer.constructor` | external/imgui/imstb_rectpack.h:265-288 | A fresh target: every user node free, the two extra nodes the skyline, in disjoint linked lists |
| `SkylinePacker.Packer.FindMinY` | external/imgui/imstb_rectpack.h:291-345 | The loop over the list computes MinY of the skyline |
| `SkylinePacker.Packer.FindBestPos` | external/imgui/imstb_rectpack.h:347-446 | Both scans over the list compute FindBest, and return the link to the node found |
| `SkylinePacker.Packer.PackRectangle` | external/imgui/imstb_rectpack.h:449-526 | Relinking in place computes Pack; no node is lost or shared: the active and the free list stay linked and disjoint and together hold all num_nodes + 2 nodes |
| `SkylinePacker.Packer.SetupHeuristic` | external/imgui/imstb_rectpack.h:233-243 | Only the heuristic changes |
| `SkylinePacker.Packer.SetupAllowOutOfMem` | external/imgui/imstb_rectpack.h:245-262 | Only the rounding changes, to 1 or the default |
| `SkylinePacker.Packer.PackRects` | external/imgui/imstb_rectpack.h:546-584 | Boxes go by falling height, then width; every one is answered in its own place; an empty one is at the origin, any other is packed if and only if it can be when its turn comes; packed ones are inside, apart from each other and from all packed before; the result says whether all were packed |
| `SkylinePacker.TraceIsRun` | external/imgui/imstb_rectpack.h:558-571 | The states a pack_rects call goes through are a run of the value-level packer |
| `SkylinePacker.SortedByHeight` | external/imgui/imstb_rectpack.h:528-537 | The comparison function sorts by falling height and, among equal heights, falling width |
| `HttpText.FindsFirst` | app/src/http_parse.cpp:28-42 | A search gives the first match, and nothing exactly when there is none |
| `HttpText.TrimSplits` | app/src/http_parse.cpp:20-26 | Every text is its trimmed core between blanks, and the core has no blank at either end |
| `HttpText.NumeralRoundTrip` | app/src/http_parse.cpp:134-149 | strtoul reads back every 32-bit number, decimal or hexadecimal in either case, whatever non-digit follows |
| `HttpText.NumberReads` | app/src/http_parse.cpp:134-149 | strtoul of any number with white space, sign and prefix: saturating, and negated modulo 2^32 after a minus sign |
| `HttpText.IntegerReads` | app/src/http_parse.cpp:86-86 | atoi of any number, saturating at both ends |
| `HttpText.LowerMeans` | app/src/http_parse.cpp:14-18 | Lower gives the one spelling of a text without capitals |
| `HttpMessages.HeaderFound` | app/src/http_parse.cpp:173-180 | The lookup gives the first header whose name has the same letters, in any case |
| `HttpMessages.HeaderAbsent` | app/src/http_parse.cpp:173-180 | ... and nothing if no name has |
| `HttpMessages.ReadingIsUnique` | app/src/http_parse.cpp:195-214 | A buffer is read as one list of messages only: each stands where the one before ended, and none parses after the last |
| `HttpMessages.MessagesAdvance` | app/src/http_parse.cpp:204-212 | Each message ends after the one before and within the buffer; there are at most 64 |
| `HttpStability.HeadStable` | app/src/http_parse.cpp:67-120 | A complete head is read the same however the capture continues |
| `HttpStability.DechunkGrows` | app/src/http_parse.cpp:126-147 | The chunk loop on a longer capture gives the same result if it stopped early, else extends it |
| `HttpStability.MessageGrows` | app/src/http_parse.cpp:65-169 | A message that ends before the end of the capture is final; one that reaches it keeps its head and what it has of a body |
| `HttpStability.ExtensionStable` | app/src/http_parse.cpp:195-214 | HttpParse of a longer capture agrees on all but the last message, and extends that one |
| `HttpStability.SizedTruncatedIff` | app/src/http_parse.cpp:148-155 | With a length the flag is set if and only if announced bytes are missing from the stored body |
| `HttpWire.ChunkSizeReads` | app/src/http_parse.cpp:131-134 | A hexadecimal chunk size in either case is read back, with or without blanks and an extension |
| `HttpWire.LengthReads` | app/src/http_parse.cpp:149-149 | A decimal Content-Length is read back |
| `HttpWire.CountedIsGood` | app/src/http_parse.cpp:148-155 | Adding a decimal Content-Length to any headers without framing frames any body |
| `HttpWire.SaysIffNames` | app/src/http_parse.cpp:116-118 | A header makes a message chunked if and only if it is a transfer-encoding with "chunked" in its value, both in any case |
| `HttpWire.AnySpellingFrames` | app/src/http_parse.cpp:116-147 | Any such header frames any chunking with hexadecimal sizes |
| `HttpWire.RecordedMeans` | app/src/http_parse.cpp:113-115 | Content type and encoding are the values of the last header of the name in any spelling, their letters in lower case, or empty |
| `HttpWire.ChunkingIsGood` | app/src/http_parse.cpp:126-147 | Adding a Transfer-Encoding header frames any chunking with hexadecimal sizes |
| `HttpRoundTrip.StartReads` | app/src/http_parse.cpp:74-99 | Request and status lines are read back |
| `HttpRoundTrip.HeadReads` | app/src/http_parse.cpp:72-120 | A serialised head gives back its start line, headers, content type and encoding, and whether it is chunked |
| `HttpRoundTrip.ChunkingRead` | app/src/http_parse.cpp:126-147 | Any chunking of a body is undone, up to the cap of 1 MiB, with a flag that says whether there was more |
| `HttpRoundTrip.MessageReads` | app/src/http_parse.cpp:65-169 | A serialised message is read back wherever it stands and whatever follows |
| `HttpRoundTrip.PipelineRoundTrip` | app/src/http_parse.cpp:195-214 | Up to 64 serialised messages, framed by length or any chunking, give back start lines, headers and the first MiB of each body, marked truncated if and only if there was more, with nothing left unread |
| `HttpRoundTrip.TrailersReadIff` | app/src/http_parse.cpp:136-140 | A message with trailers is read to its end if and only if it has at most one |
| `HttpCut.CutTruncatedIff` | app/src/http_parse.cpp:126-147 | A chunked message cut anywhere after its head keeps its head and exactly the data captured up to the cap, and is marked truncated if and only if the cap left something out, or the cut is in no chunk's data and before the end of the last chunk's line |
| `HttpCut.UnmarkedIff` | app/src/http_parse.cpp:141-141 | Bytes of its body are missing without a mark if and only if the cut is in a chunk's data and the cap left nothing out |
| `HttpCut.HelloCut` | app/src/http_parse.cpp:141-141 | A POST with the chunk "hello", cut after "he", has the body "he" and no mark |
| `HttpAccepts.RequestLineIff` | app/src/http_parse.cpp:89-98 | A line is a request line if and only if it is a verb and a target without spaces and then a version starting "HTTP/" |
| `HttpAccepts.StatusLineIff` | app/src/http_parse.cpp:79-88 | A line is a status line if and only if it is a version without spaces, a code from 100 to 599 and perhaps a reason |
| `HttpAccepts.ParsesIff` | app/src/http_parse.cpp:65-99 | There is a message at a place if and only if there is a head up to a blank line that opens with a start line |
| `HttpAccepts.UnframedBody` | app/src/http_parse.cpp:156-169 | A response that does not say where it ends has the rest of the capture as its body, up to the cap, and uses it up; such a request has none |
| `HttpParser.FindCRLF` | app/src/http_parse.cpp:28-34 | The loop computes the first line break |
| `HttpParser.FindDoubleCRLF` | app/src/http_parse.cpp:36-42 | The loop computes the first blank line |
| `HttpParser.TrimText` | app/src/http_parse.cpp:20-26 | The loops compute Trim |
| `HttpParser.AppendCapped` | app/src/http_parse.cpp:56-63 | At most 1 MiB is kept, and overflow reported |
| `HttpParser.HttpFindHeader` | app/src/http_parse.cpp:173-180 | The loop computes the lookup |
| `HttpParser.ReadHeaders` | app/src/http_parse.cpp:101-120 | The header loop computes AddLines |
| `HttpParser.ReadChunks` | app/src/http_parse.cpp:126-147 | The chunk loop computes Dechunk |
| `HttpParser.ParseOne` | app/src/http_parse.cpp:65-169 | ParseOne computes MessageAt; a successful parse advances within the buffer, so the guard against one that does not is never needed |
| `HttpParser.HttpParse` | app/src/http_parse.cpp:195-214 | HttpParse computes Messages |
| `TlsKeyLog.BytesToHex` | app/src/tls_decrypt.cpp:13-20 | The loop computes Hex |
| `TlsKeyLog.HexToBytes` | app/src/tls_decrypt.cpp:22-37 | The loop computes Unhex, which stops at the first bad pair |
| `TlsKeyLog.HexRoundTrip` | app/src/tls_decrypt.cpp:13-37 | Decoding undoes encoding |
| `TlsKeyLog.HexCanonical` | app/src/tls_decrypt.cpp:13-37 | Encoding undoes decoding up to letter case if and only if the text is pairs of hex digits |
| `TlsKeyLog.KeyLog.AddLine` | app/src/tls_decrypt.cpp:41-55 | The map changes as ParseLine says, for well-formed and other lines |
| `TlsKeyLog.KeyLog.MasterSecret` | app/src/tls_decrypt.cpp:66-70 | The secret on record for a client random, or nothing |
| `TlsKeyLog.ParseLineIff` | app/src/tls_decrypt.cpp:43-54 | A line counts if and only if it is the label, 64 characters without a space, a space and the rest, whose hex is the secret |
| `TlsKeyLog.KeyLogRoundTrip` | app/src/tls_decrypt.cpp:41-70 | A logged secret is found again, in either letter case, unless a later line names the same client random |
| `TlsKeyLog.OtherLineHarmless` | app/src/tls_decrypt.cpp:52-54 | A line for another client random changes nothing for this one |
| `TlsKeyLog.UnknownIsEmpty` | app/src/tls_decrypt.cpp:66-70 | A client random no line names is unknown |
| `TlsPrf.Phash` | app/src/tls_decrypt.cpp:74-95 | Exactly the first outLen bytes of every long enough P_hash expansion of section 5 of RFC 5246 |
| `TlsPrf.PHashPrefixes` | app/src/tls_decrypt.cpp:74-95 | Shorter outputs are prefixes of longer ones |
| `TlsPrf.TwoBlocks` | app/src/tls_decrypt.cpp:80-90 | The first two blocks are those section 5 of RFC 5246 writes out |
| `TlsPrf.Prf12` | app/src/tls_decrypt.cpp:97-104 | P_hash of label and seed |
| `TlsPrf.DeriveKeyBlock` | app/src/tls_decrypt.cpp:124-139 | The two keys and two IVs tile, in the order of section 6.3 of RFC 5246, the PRF of the master secret, the label "key expansion" and server random before client random |
| `TlsPrf.TilingIsUnique` | app/src/tls_decrypt.cpp:132-137 | There is only one such tiling |
| `TlsRecords.ParseRecords` | app/src/tls_decrypt.cpp:145-158 | The loop computes Records |
| `TlsRecords.PutRec` | app/src/tls_decrypt.cpp:272-277 | Appends a header with the low 16 bits of the length, and the payload; a frame of the record for payloads below 64 KiB |
| `TlsRecords.PutReads` | app/src/tls_decrypt.cpp:272-277 | Such a record is read back whole if and only if its payload is below 64 KiB; otherwise as a beginning of it and further records |
| `TlsRecords.FramesRead` | app/src/tls_decrypt.cpp:145-158 | Framed records are found again, whatever follows |
| `TlsRecords.StreamSplits` | app/src/tls_decrypt.cpp:149-156 | Every stream is the frames of its records and less than one more |
| `TlsRecords.RecordsGrow` | app/src/tls_decrypt.cpp:145-158 | More bytes only add records |
| `TlsRecords.FindHandshake` | app/src/tls_decrypt.cpp:160-175 | The first handshake message of a type among all handshake records |
| `TlsRecords.HandshakeReads` | app/src/tls_decrypt.cpp:165-172 | A handshake message with its 24-bit length is read back, whatever follows in the record |
| `TlsRecords.SearchStable` | app/src/tls_decrypt.cpp:160-175 | A message once found stays the one found |
| `TlsRecords.OthersSkipped` | app/src/tls_decrypt.cpp:160-175 | Records of other types than 22 do not count, whatever they hold |
| `TlsDecrypt.SealOpens` | app/src/tls_decrypt.cpp:177-200 | A record sealed as section 3 of RFC 5288 says opens to its plaintext |
| `TlsDecrypt.OpenMeans` | app/src/tls_decrypt.cpp:177-200 | A record opens with nonce, ciphertext and tag taken from their places; one under 24 bytes does not open |
| `TlsDecrypt.AadLayout` | app/src/tls_decrypt.cpp:190-196 | The additional data is the 64-bit sequence number, type, version and length, each read back from its place |
| `TlsDecrypt.DecryptDir` | app/src/tls_decrypt.cpp:202-221 | The loop computes Direction |
| `TlsDecrypt.SealedAdds` | app/src/tls_decrypt.cpp:211-219 | A sealed record of type 23 adds its plaintext, of any other type nothing; either uses up a sequence number |
| `TlsDecrypt.StreamRoundTrip` | app/src/tls_decrypt.cpp:202-221 | Clear records, a ChangeCipherSpec and records sealed under 0, 1, 2, ... decrypt to exactly the plaintexts of type 23, in order |
| `TlsDecrypt.DirectionGrows` | app/src/tls_decrypt.cpp:202-221 | A longer capture only extends the output |
| `TlsDecrypt.BadRecordStops` | app/src/tls_decrypt.cpp:213-219 | Nothing after a record that does not open is output |
| `TlsFlow.TlsDecryptFlow` | app/src/tls_decrypt.cpp:225-268 | The code computes FlowResult, with every reason for giving up |
| `TlsFlow.ClientHelloReads` | app/src/tls_decrypt.cpp:235-242 | The random of a ClientHello of section 7.4.1.2 of RFC 5246 is read back |
| `TlsFlow.ServerHelloReads` | app/src/tls_decrypt.cpp:243-248 | Random and suite of a ServerHello of section 7.4.1.3 of RFC 5246 are read back, for every session id |
| `TlsFlow.SuiteTable` | app/src/tls_decrypt.cpp:110-120 | Exactly three suites have 16-byte keys and SHA-256 and three have 32-byte keys and SHA-384, by number |
| `TlsFlow.KeysTile` | app/src/tls_decrypt.cpp:124-139 | The keys a connection is decrypted with are those of its suite's key length and hash |
| `TlsFlow.GivesUp` | app/src/tls_decrypt.cpp:235-261 | What is reported when a flow is not decrypted is the first of hellos, suite, version and secret that is missing |
| `TlsFlow.FlowRoundTrip` | app/src/tls_decrypt.cpp:225-268 | Both directions of any TLS 1.2 GCM connection, from the bytes of its hellos on, decrypt to exactly what its sides sent |
| `TlsFlow.FlowGrows` | app/src/tls_decrypt.cpp:225-268 | A decrypted flow stays decrypted, with more of the same data, as the capture grows |
| `InspectorCache.PayloadGrows` | app/src/ui.cpp:1015-1015 | Without a clear a flow's payload only grows at its end, while the cap changes in any way |
| `InspectorCache.CacheIsFresh` | app/src/ui.cpp:557-565 | In every run of deliveries, cap changes, clears and draws, drawing a flow shows the parse of what it holds, unless the capture was cleared since the cache was filled |
| `InspectorCache.CacheFreshIff` | app/src/ui.cpp:557-565 | After a draw an equal key means equal bytes at the next, for all that may happen between, if and only if no clear can happen between or the flow had no payload |
| `InspectorCache.StaleShown` | app/src/ui.cpp:231-231 | Bytes drawn, cleared and replaced by others, as many, on the same flow: the messages of the first stay on the screen |
| `InspectorCache.StaleOnFlowSeven` | app/src/ui.cpp:146-146 | An instance: four inbound bytes of flow 7 |
| `InspectorCache.ShownStays` | app/src/ui.cpp:561-565 | Without a clear the messages of a payload stay, but for the last, which may grow, for any sequence of caps |
| `Inspector.DecryptedStays` | app/src/ui.cpp:587-597 | In every run without a clear a flow that decrypts goes on decrypting with the same suite, and its messages stay but for the last |
| `Inspector.StaleMessages` | app/src/ui.cpp:557-565 | HTTP messages drawn before a clear are shown in place of others of the same total size received after it |
| `Inspector.HttpIsShown` | app/src/ui.cpp:561-565 | HTTP messages sent over a connection are shown as sent, through interleaved callouts and their chunk loops, ring, poll, ingest and parser |
| `Inspector.SecureHttpIsShown` | app/src/ui.cpp:587-597 | The same for messages inside TLS 1.2, given the secret |

## Left out

* Weak memory: the barriers are modelled as sequentially consistent publish and snapshot steps.
* Wrap-around of the 64-bit positions and byte counters, which no run reaches; sequence numbers do wrap.
* `KndRingDestroy`, mapping, IOCTLs, WFP registration and the lifecycle of driver objects.
* A null ring or data pointer in `KndRingWrite` and `poll`; the payload and data of a request are sequences, a null pointer being the empty one.
* The scratch allocation in the stream callout can fail, which drops the indication before it reaches the loop; how many bytes the filtering platform copies is a parameter, and so are the clock and the two sorts of `stbrp_pack_rects` (any order the comparison functions allow).
* The number of active flows in the ring header, and the byte totals the driver puts into a CONN_CLOSE: what the application makes of them is modelled, how the driver counts is not.
* Process names, wall-clock times, the informational text of packets and all formatting helpers.
* Target dimensions from 2^30 up and overflow of the waste area in 32 bits: the sentinel height is 2^30 and areas are unbounded here.
* Locales other than "C" for `isalpha`, `tolower` and `strtoul`; `unsigned long` has 32 bits, as on the platform the code is for.
* `HttpIsTextual`, and decompression of bodies, which the code does not do.
* `TlsKeyLog::loadFile` (its lines are the argument of `Loaded`), the note texts, and the wrap-around of the record sequence number after 2^64 records.
* The cache of the decrypted tab, which is keyed the same way and by the number of keys besides.
* The sockets, threads, certificate and injection code, and everything the inspector draws.
