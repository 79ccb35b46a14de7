# chunimidi LED decoder, modelled in Dafny

chunimidi reads the LED stream that a rhythm-game controller driver writes to a
Unix socket and lights the eight drum pads of a Launchkey Mini MK3 with it.
This project models the core of `src/main.rs`:

- the wire constants;
- the frame decoder `try_parse_packet`:
  - header checks;
  - escape removal (the escape byte 0xD0 followed by x stands for x + 1, wrapping);
  - regrouping of wire triples into colours (`bytes_to_rgb_vec`);
  - shaping of the three board payloads, with the slider reversed into physical order (`reverse_slider_leds`);
- the zone reducer `slider_to_drum_pads`, which gives eight pads as the truncating per-channel means of zones of four LEDs (the last zone has three);
- the receive-window loop of `main`:
  - resynchronising on the frame marker 0xE0;
  - dropping a byte on an invalid header;
  - waiting on an incomplete frame;
  - draining the bytes consumed;
  - forwarding slider summaries that differ from the one last delivered.

Files:

- `led_types.dfy`: bytes, colours, boards and packets. It also holds `Profile`, with two values:
  - `AS_WRITTEN` is the program exactly;
  - `CORRECTED` is the decoder with the two defects under "Findings" repaired.
- `stuffing.dfy`: escape removal. `Unstuff` is its specification and `UnstuffLoop` is the program's index loop. The file also has a sender-side `Stuff`, which is used to state round trips.
- `colors.dfy`: the colour regrouping and the reversal.
- `decoder.dfy`: `ParsePacket` is the specification of one decode attempt. `TryParsePacket` is the method proved equal to it.
- `drum_pads.dfy`: the zone reducer. `SliderToDrumPads` keeps the program's arrays, loops and 32-bit accumulators. It is proved equal to the function `Summary`.
- `stream_loop.dfy`: covers the window loop.
  - `Drain` specifies the inner loop on one window.
  - The class `LedStream` holds the window, the last delivered pads and a ghost log of send attempts.
  - `LedStream.Turn` is one pass of the inner loop.
  - `LedStream.Feed` is one pass of the outer loop, on a chunk that was read.

A Rust panic is modelled as the outcome `Panicked`. A panic would happen in a `try_from(..).unwrap()` whose slice has the wrong length.

## Model

| member | source | states |
|---|---|---|
| Stuffing.Unstuff | src/main.rs:245-261 | a successful un-stuffing decodes exactly the target number of bytes, from at least that many and at most twice that many raw bytes, all within the input |
| Stuffing.UnstuffLoop | src/main.rs:243-261 | the index loop returns exactly the un-stuffing of the raw bytes: plain bytes are copied, an escape pair gives the next byte plus one (mod 256), an escape as the last byte means incomplete, and too few bytes means incomplete |
| Stuffing.Inc | src/main.rs:252 | `wrapping_add(1)`: the successor of the byte, with 255 wrapping to 0 |
| Stuffing.IncDec | src/main.rs:252 | the wrapping increment undoes the sender's decrement, including at 0 and 255 |
| Stuffing.UnstuffPrefixStable | src/main.rs:245 | once the target is reached no further byte is read, so appending bytes never changes a complete decode |
| Stuffing.UnstuffLiteral | src/main.rs:245-257 | a run of bytes without escape markers decodes to itself |
| Stuffing.ExhaustedThenEscapeDangles | src/main.rs:247-251 | an escape byte that arrives where a token should start leaves the decode waiting for its partner |
| Stuffing.UnstuffStuffed | src/main.rs:245-257 | round trip: un-stuffing a stuffed payload, whatever follows it, gives the payload back and consumes exactly its stuffed length, provided the escape byte itself is escaped |
| Stuffing.StuffedPrefixIncomplete | src/main.rs:245-261 | no strict prefix of a stuffed payload decodes completely |
| Stuffing.StuffedAvoidsFraming | src/main.rs:11-12 | when both markers are escaped (and 0xE1 is not), a stuffed payload contains no frame marker, so resynchronising cannot land inside a frame |
| Colors.BytesToRgb | src/main.rs:42-51 | each full triple (b0, b1, b2) becomes the colour r = b1, g = b2, b = b0, in order, and a trailing group of 1 or 2 bytes is dropped |
| Colors.Reversed | src/main.rs:53-57 | the result has the same length and holds the LEDs in the opposite order |
| Decoder.MapPayload | src/main.rs:265-282 | the `match board` shapes succeed exactly when the colour count equals the board's array sizes; boards 0 and 1 split the colours into main and sides without losing any, and board 2 is reversed |
| Decoder.Assemble | src/main.rs:263-285 | shaping the decoded bytes panics exactly when their colour count (a third of their length) differs from the board's array sizes; otherwise it gives a packet for the board, correctly shaped, with the consumed count passed through |
| Decoder.ParsePacket | src/main.rs:231-286 | a decode attempt is invalid exactly when the buffer is too short, does not start with the marker, or names an unknown board; a parsed packet carries the board byte, is correctly shaped, and consumes at least the board's payload length plus the header, within the buffer |
| Decoder.TryParsePacket | src/main.rs:231-286 | the program's decoder, with its early returns, index loop and payload match, returns exactly what `ParsePacket` specifies |
| Decoder.InvalidHeaderAsWritten | src/main.rs:232-239 | as written, the result is invalid exactly when the length is under 2, the first byte is not 0xE0, or the board is 3 or more |
| Decoder.ParsePrefixStable | src/main.rs:231-286 | for a buffer of at least two bytes, an answer other than incomplete does not change when more bytes arrive |
| Decoder.ParseFrame | src/main.rs:241-286 | round trip: a stuffed frame of the board's length decodes to what `Assemble` makes of its payload: a packet consuming exactly the frame, or, for board 0 as written, a panic |
| Decoder.WireFrame | src/main.rs:241-286 | with both markers escaped, a frame holds no frame marker after its first byte and decodes to what `Assemble` makes of its payload: a packet consuming exactly the frame, or, for board 0 as written, a panic |
| Decoder.FramePrefixIncomplete | src/main.rs:245-261 | every strict prefix of a frame that holds the board byte is incomplete |
| Decoder.LoneMarkerWaits | src/main.rs:232-233 | under the corrected profile, a buffer holding only the marker is incomplete |
| Decoder.SliderDecoded | src/main.rs:278-280 | a slider frame always parses, and physical LED j is wire triple 30 - j with its channels reordered |
| Decoder.RightBillboardDecoded | src/main.rs:272-277 | a right-billboard frame always parses, into colours 0 to 59 as main and 60 to 62 as sides |
| Decoder.LeftBillboardAlwaysPanics | src/main.rs:264-271 | as written, every complete left-billboard frame panics: 159 bytes give 53 colours, and `split_at(53)` leaves no side colours for `[Rgb; 3]` |
| Decoder.AsWrittenNeverYieldsLeft | src/main.rs:264-271 | as written, no parsed packet is ever for board 0 |
| Decoder.LeftBillboardDecoded | src/main.rs:264-271 | corrected, a left-billboard frame parses into 50 main and 3 side colours |
| Decoder.CorrectedNeverPanics | src/main.rs:263-283 | the corrected decoder never panics, for any buffer |
| Decoder.LiteralSliderFrame | src/main.rs:241-286 | a slider frame without escapes consumes 95 bytes, and physical LED 0 comes from its last triple |
| DrumPads.ZoneSize | src/main.rs:63-64 | zones 0 to 6 cover four LEDs and zone 7 covers three, all within the 31 LEDs |
| DrumPads.ChannelSum | src/main.rs:72-77 | the total of one channel over the LEDs `lo` up to (not including) `hi`, the quantity the program's accumulators hold; its bound is `ChannelSumBound` |
| DrumPads.ChannelSumBound | src/main.rs:72-77 | a channel total over n LEDs is at most 255 n, so the 32-bit accumulators cannot overflow |
| DrumPads.ChannelMean | src/main.rs:72-84 | the truncating mean m of a zone's channel, so that m times the zone size is at most the channel total, which is less than m + 1 times the zone size |
| DrumPads.ZoneMean | src/main.rs:62-84 | the pad colour of a zone: each of its channels is that channel's truncating mean over the zone |
| DrumPads.Summary | src/main.rs:59-87 | eight pads, pad i being the mean colour of zone i |
| DrumPads.StoredMeanIsZoneMean | src/main.rs:80-84 | the stored `(total / count) as u8` never truncates, and it equals the zone's mean |
| DrumPads.SliderToDrumPads | src/main.rs:59-87 | the method's arrays and 32-bit accumulators (which never overflow) compute exactly the 8-pad summary of per-zone truncating channel means |
| DrumPads.ChannelSumBetween | src/main.rs:72-77 | a zone's channel total lies between its count times the smallest level and its count times the largest |
| DrumPads.UniformSlider | src/main.rs:59-87 | a slider lit with one colour gives eight pads of that colour |
| DrumPads.ZoneMeanLocal | src/main.rs:62-84 | each pad depends only on the LEDs of its own zone |
| DrumPads.LastLedOnlyMovesLastPad | src/main.rs:62-64 | LED 30 affects only pad 7 |
| StreamLoop.FramingPosition | src/main.rs:365 | a position found holds a frame marker |
| StreamLoop.FramingPositionFirst | src/main.rs:365 | the position is that of the first marker, and none is found exactly when the window has no marker |
| StreamLoop.Drain | src/main.rs:365-407 | the inner loop on one window: it skips to the first marker, then stops on Incomplete or a panic, drops one byte on Invalid, or emits the packet and drains `used` bytes; what is left is never longer than the window (its other properties are the `Drain*` lemmas) |
| StreamLoop.DrainNoMarker | src/main.rs:365 | a window without a marker is left untouched by the inner loop |
| StreamLoop.DrainStops | src/main.rs:365-406 | the inner loop stops only on a window without a marker, or at a marker whose frame is incomplete, or (on a panic) at a marker whose frame panics |
| StreamLoop.DrainStep | src/main.rs:365-406 | one turn: incomplete stops at the marker, a panic stops there, invalid drops one byte, and a parsed packet is emitted and its bytes drained |
| StreamLoop.DrainRestIsSuffix | src/main.rs:366-403 | the loop only ever removes bytes from the head of the window |
| StreamLoop.DrainSkipsGarbage | src/main.rs:366-368 | the bytes before the first marker make no difference |
| StreamLoop.GarbageThenFrame | src/main.rs:365-401 | a frame behind marker-free garbage is decoded, and the loop continues on the bytes after it |
| StreamLoop.DrainChunked | src/main.rs:357-408 | with the lone-marker fix, how the stream is cut into reads does not affect the packets decoded or the window left behind |
| StreamLoop.LoneMarkerLosesFrame | src/main.rs:232-233 | as written, a read that ends with a lone marker drops it, and the rest of the frame then decodes to nothing, although the same bytes in one read decode to one packet |
| StreamLoop.Summaries | src/main.rs:375-376 | the slider summaries of a run of packets, in order: at most one per packet, each of eight pads |
| StreamLoop.SummaryOf | src/main.rs:375-376 | one packet gives exactly one summary of eight pads when it is a slider packet of 31 LEDs, and none otherwise |
| StreamLoop.SummariesSingle | src/main.rs:375-376 | the summaries of a single packet are that packet's own |
| StreamLoop.SummariesSnoc | src/main.rs:375-377 | one more packet adds its own summaries at the end |
| StreamLoop.SummariesAppend | src/main.rs:375-377 | the slider summaries of two runs of packets are those of the first followed by those of the second |
| StreamLoop.After | src/main.rs:385-393 | the pads last delivered after a run of send attempts: those of the last delivered attempt, or the initial ones when none was delivered |
| StreamLoop.AfterIsDelivered | src/main.rs:385-393 | the pads last delivered are either the initial ones or the pads of some attempt that was delivered |
| StreamLoop.SentFor | src/main.rs:380-393 | the send attempts made for a run of summaries: a summary equal to the pads last delivered is skipped and any other is attempted once, so there are never more attempts than summaries |
| StreamLoop.SentForSkip | src/main.rs:380-383 | a summary equal to the one last delivered makes no send attempt |
| StreamLoop.SentForSend | src/main.rs:380-393 | a summary that differs from the one last delivered makes one attempt, and `last` changes only if it is delivered |
| StreamLoop.NoResendUntilChange | src/main.rs:380-393 | after a delivery, the same pads are not sent again until different pads have been delivered |
| StreamLoop.AfterSkipsUndelivered | src/main.rs:385-393 | failed sends do not change the pads last delivered |
| StreamLoop.SentForSingle | src/main.rs:380-393 | a single summary gives no attempt if it was already delivered, and otherwise one attempt against the previous pads |
| StreamLoop.RepeatedSummary | src/main.rs:380-393 | two equal summaries in a row give at most two attempts, and only one if the first attempt was delivered |
| StreamLoop.AfterAppend | src/main.rs:385-393 | the pads last delivered after two runs of attempts are those after the second, starting from the first |
| StreamLoop.SentForAppend | src/main.rs:380-393 | the attempts for two runs of summaries are those for the first followed by those for the second |
| StreamLoop.AppendPreservesDedup | src/main.rs:380-393 | an attempt made against the last delivered pads, with different pads, keeps the log deduplicated |
| StreamLoop.LedStream.constructor | src/main.rs:355 | the stream starts with an empty window, nothing delivered (`last_drum_pads` is `None`, line 320), and an empty log |
| StreamLoop.LedStream.Send | src/main.rs:386-394 | sending eight pads to the device, which may accept or refuse them; the outcome is not determined by the model |
| StreamLoop.LedStream.Forward | src/main.rs:375-399 | the slider branch reduces the LEDs to pads, sends them exactly when they differ from the pads last delivered, updates `last` only on a delivery, and keeps the log deduplicated, with eight pads in every attempt |
| StreamLoop.LedStream.Turn | src/main.rs:365-406 | one turn of the inner loop follows `Drain`: it stops where `Drain` stops (with its window and panic); otherwise a marker was found, and the new window is what follows it minus one byte on Invalid, or minus the `used` bytes of the packet parsed, whose summaries are forwarded |
| StreamLoop.LedStream.Feed | src/main.rs:363-408 | after a read, the window, the panic flag and the new send attempts are exactly what `Drain` on the old window plus the chunk prescribes; the earlier log is kept |

## Left out

- MIDI output (`send_rgb_to_launchkey`, DAW-mode setup, test colours): the device is not modelled. It is abstracted by the result of `LedStream.Send`, a success flag the model leaves free; no member takes a device.
- `rgb_to_launchkey_velocity`: palette matching in floating point, which is not modelled. A summary stands for the pads it would send.
- Socket I/O: the chunk that `stream.read` returns is the argument of `LedStream.Feed`. The end-of-stream break on `n == 0`, the 4096-byte read buffer and the socket-connect fallback are not modelled.
- The signal handler and the `running` flag: concurrency is not modelled, so the outer loop is one `Feed` per read.
- Logging (`info!`, `debug!`, `error!`) has no effect on state and is left out.
- Rust panics: modelled as the outcome `Panicked`. `LedStream.Feed` reports one and stops, because the process would abort there. Nothing after a panic is modelled.
- The `_ => Invalid` arm of the payload match cannot be reached after the board check, so it is not modelled.
- `StreamLoop.DrainChunked` is stated for the corrected profile only. As written it does not hold (see `StreamLoop.LoneMarkerLosesFrame`).
- `Stuffing.UnstuffStuffed` and `Decoder.ParseFrame` describe the sender (`Stuff`, `Frame`) only to state round trips. The driver that writes the stream is not part of this model.

## Findings

| source | as written | input that shows it | evidently intended | confidence | as-written member | corrected member |
|---|---|---|---|---|---|---|
| src/main.rs:14, 264-271 | board 0 carries 53 × 3 bytes, i.e. 53 colours, but is split with `split_at(53)` into `[Rgb; 53]` and `[Rgb; 3]`; the side slice is empty and the unwrap panics | any complete frame `E0 00` followed by 159 payload bytes | the 53 colours split as 50 main and 3 sides, as board 1's 63 split as 60 + 3; the declared type `BillboardLeft([Rgb; 53], [Rgb; 3])` (line 31) points instead to a table entry of 56 × 3 bytes, which is the other possible repair | high for the panic, which is proved; which repair was meant is an inference (50 + 3 is modelled, 56 × 3 is not); not executed | Decoder.LeftBillboardAlwaysPanics | Decoder.CorrectedNeverPanics |
| src/main.rs:232-233, 365-404 | a window holding only `E0` is Invalid, so the marker is dropped, and a frame whose marker ends one read is lost | a read of `E0`, then a read of `02` followed by 93 zero bytes: no packet, whereas one read of both gives one slider packet | a lone marker is Incomplete and waits for the next read | medium: the loss is proved, but whether the driver ever splits a frame after its marker is not known; not executed | StreamLoop.LoneMarkerLosesFrame | StreamLoop.DrainChunked |
