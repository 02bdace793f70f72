# RadioHead Raspberry Pi IoT gateway: packet handling model

This project models the per-frame packet handling of the RadioHead Raspberry Pi
IoT gateway example (`examples/raspi/iot/iot.cpp`). The gateway receives a frame
from a remote sensor node over an RFM69 radio. It decodes up to four tagged 4-byte
sensor values, posts each one to the EasyIoT backend sensor chosen by the sender's
address, and then posts one reading of its own ADC-attached temperature sensor.

The model keeps the code's own shape:

- `buf` is an `array<byte>`. `HandleFrame` writes the terminator `buf[len] = 0` into it in place.
- `DecodeAndPublish` walks the buffer with an `index` cursor and makes one `Probe` per tag.
  Each probe reads the tag byte with `index++` and, on a match, copies the 4 value bytes
  through `ConvertToFloat` and moves the cursor by 4 more.
- `ReadAdc` fills a 3-byte request array, lets the SPI exchange replace it, and merges
  the answer with a shift, a mask and `|=`.

Each method is proved against a pure function of its inputs: `Probes`, `Decode`,
`Handle`, `Step` or `AdcReading`. The lemmas state the properties of those functions.
A value is kept as its 4 raw bytes, not as a float.

The source has no bounds checks. An access outside `buf` is undefined behaviour in C++.
The model reports such an access as a `fault` that names the first offending offset
and stops there. The publishes already made stay in the outcome, because the HTTP
requests for earlier tags have already gone out by then. There are two such accesses:

- The terminator write, when a frame fills the whole buffer (`len == RH_RF69_MAX_MESSAGE_LEN`).
- Probe reads, but only if the buffer were shorter than 21 bytes.

The buffer length stands for `RH_RF69_MAX_MESSAGE_LEN`. It is a parameter because its
definition (RH_RF69.h) is not part of this model.

iot.cpp checks nothing about the frame it received (its own TODO at iot.cpp:192 marks the probe
chain as provisional). As a consequence:

- It has no empty-frame error. A frame of length 0 overwrites the packet number with the
  terminator and is decoded from stale bytes, and the local reading is still posted
  (`EmptyFrameStillPublishes`).
- It has no truncation error and no check against `len`. Probes read whatever bytes are
  left in the buffer, up to offset 20 (`HandleReadsOneToTwenty`, `TerminatorReadAsTemp`).
- It routes by branches on the sender, not by a table: sender 2 selects one set of
  identifiers, and every other address selects the other set (`Route`).
- A frame that leaves out a tag shifts every later probe onto the wrong bytes (iot.cpp:204-230):
  after a mismatch the cursor moves by only 1, so the next probes test the following tag byte
  or bytes of a value. Values can then be lost, or value bytes can be posted as a reading of
  another sensor. `PartialPacketAsWritten` shows one frame with a temperature and a CO2 value
  whose CO2 value is lost. `PartialPacketMisread` shows another whose CO2 value bytes are
  posted as a microphone reading. A complete packet always decodes in full (`DecodeEncode`,
  `FullPacketPublished`).
- The local reading is posted once per received frame, after all of the frame's records.

The code's four unrolled `if` blocks are one loop over `ProbeOrder`, so the probes come in
the same order with the same cursor arithmetic. `readAdc` declares `char data[3]`, which may
be signed. Under two's complement its shift and masks give the same bits as unsigned bytes,
so the model uses `bv8`.

## Model

| member | source | states |
|---|---|---|
| Protocol.TagId | examples/raspi/iot/iot.cpp:21-25 | the probed tags announce themselves with bytes 0, 1, 3 and 4; none is MICROPHONE_AUDIO_ID (2), and only TEMP uses 0 |
| Protocol.TagIdInjective | examples/raspi/iot/iot.cpp:21-25 | distinct tags have distinct bytes, in both directions |
| Routing.Route | examples/raspi/iot/iot.cpp:198-228 | sender 2 gets N5S0, N7S0, N6S0, N8S0 for TEMP, IR, MIC, CO2 (by probe rank); any other sender gets N9S0, N11S0, N10S0, N12S0; no routed id contains '/' or is TEMP_PI |
| Routing.RouteInjective | examples/raspi/iot/iot.cpp:27-36 | two values share a backend id exactly when they have the same tag and both or neither come from node 2 |
| Uplink.Url | examples/raspi/iot/iot.cpp:100 | the URL starts with the EasyIoT virtual-module prefix and its length is prefix + id + "/ControlLevel/" + value text |
| Uplink.UrlRoundTrip | examples/raspi/iot/iot.cpp:100 | splitting a built URL at its first '/' after the prefix gives back the identifier and the value text, for any id without '/' |
| Uplink.UrlInjective | examples/raspi/iot/iot.cpp:100 | for ids without '/', equal URLs mean equal id and equal value text, in both directions |
| Adc.AdcReading | examples/raspi/iot/iot.cpp:80-84 | the reading is (second answer byte & 3) * 256 + third answer byte, never above 1023 |
| Adc.AdcReadingOnto | examples/raspi/iot/iot.cpp:81-82 | every value up to 1023 is read from some answer; the first byte and the top six bits of the second are ignored |
| Adc.ReadAdc | examples/raspi/iot/iot.cpp:74-84 | the bytes sent are 0x01, 0x80, 0x00 (start bit, single-ended channel 0), and the shift-mask-or merge of the answer equals AdcReading |
| Decoder.ConvertToFloat | examples/raspi/iot/iot.cpp:60-68 | the value is exactly the 4 bytes at the given offset, in order |
| Decoder.ProbesShape | examples/raspi/iot/iot.cpp:191-230 | at most one record per probe; without a fault the cursor moved by 1 per probe and 4 more per match; a fault is at or past the buffer end, and happens only when the buffer is shorter than 5 bytes per probe |
| Decoder.ProbesOrdered | examples/raspi/iot/iot.cpp:195-230 | records appear only for the probed tags, each at most once, in probe order |
| Decoder.ProbesValues | examples/raspi/iot/iot.cpp:195-197 | each record's value is the 4 bytes right after a byte equal to its tag, inside the buffer and before the final cursor |
| Decoder.ProbesLocal | examples/raspi/iot/iot.cpp:191-230 | the probes depend only on the 5 bytes per probe starting at the cursor |
| Decoder.DecodeShape | examples/raspi/iot/iot.cpp:191-230 | at most 4 records, in probe order; final cursor 5 + 4 * matches, at most 21; a buffer of 21 bytes or more never faults |
| Decoder.DecodeReadsOneToTwenty | examples/raspi/iot/iot.cpp:191-230 | buffers of at least 21 bytes that agree on offsets 1..20 decode alike: nothing from offset 21 on is read |
| Decoder.PacketNumberIgnored | examples/raspi/iot/iot.cpp:193-194 | byte 0 is the packet number and does not affect what is decoded |
| Decoder.Encode | examples/raspi/iot/iot.cpp:193-230 | a complete packet (number, then TEMP, IR, MIC_ENVEL, CO2 each with 4 bytes) is 21 bytes long |
| Decoder.DecodeEncode | examples/raspi/iot/iot.cpp:193-230 | decoding a complete packet followed by any bytes gives back its four records in order, with the cursor at 21 |
| Gateway.Dispatch | examples/raspi/iot/iot.cpp:195-230 | exactly one publish per record |
| Gateway.DispatchAt | examples/raspi/iot/iot.cpp:195-230 | the publishes follow the record order, each to the record's routed id with the record's bytes |
| Gateway.Probe | examples/raspi/iot/iot.cpp:195-230 | one probe block: its publish and next cursor are exactly one step of Probes, or it reports the probe's fault |
| Gateway.DecodeAndPublish | examples/raspi/iot/iot.cpp:191-230 | the publishes, final cursor and fault of the four probes equal those of Decode on the buffer, routed by Dispatch |
| Gateway.HandleFrame | examples/raspi/iot/iot.cpp:186-233 | writes the terminator in place when in bounds (nothing else in buf changes) and returns Handle of the old buffer with the ADC reading |
| Gateway.Poll | examples/raspi/iot/iot.cpp:181-188 | no received frame means no publish and an unchanged buffer; otherwise the pass of HandleFrame, with the terminator written into the buffer when it is in bounds and nothing else changed |
| Gateway.TerminatorFault | examples/raspi/iot/iot.cpp:190 | the terminator write faults, before any publish, exactly when len >= buffer length; any other fault is a read at or past the buffer end |
| Gateway.LongBufferFaults | examples/raspi/iot/iot.cpp:186-190 | with at least 21 bytes of buffer, a pass faults exactly when the frame fills the buffer |
| Gateway.PublishOrder | examples/raspi/iot/iot.cpp:195-231 | a pass without a fault posts the decoded records in probe order and then exactly one TEMP_PI post; a faulting pass never posts TEMP_PI |
| Gateway.EmptyFrameStillPublishes | examples/raspi/iot/iot.cpp:188-231 | a frame of length 0 gives no error: it is decoded from the stale bytes and the local reading is still posted |
| Gateway.TerminatorReadAsTemp | examples/raspi/iot/iot.cpp:190-197 | when len is 1 the TEMP probe reads the terminator 0, matches, and posts the 4 stale bytes at offsets 2..5 as a temperature |
| Gateway.HandleReadsOneToTwenty | examples/raspi/iot/iot.cpp:190-230 | a pass depends on the bytes at offsets 1..20 whatever len is, and on no byte past them |
| Gateway.FullPacketPublished | examples/raspi/iot/iot.cpp:191-231 | a complete 21-byte frame posts its four values to the sender's TEMP, IR, MIC and CO2 ids in that order, then TEMP_PI |
| Gateway.PartialPacketAsWritten | examples/raspi/iot/iot.cpp:195-231 | a node-2 frame with TEMP 23.5 and CO2 410.2 only posts the temperature to N5S0 and then TEMP_PI; the CO2 value is lost |
| Gateway.PartialPacketMisread | examples/raspi/iot/iot.cpp:195-231 | a node-2 frame with a temperature and a CO2 value starting with byte 3 posts the temperature to N5S0, then the CO2 value's last three bytes and the terminator to N6S0 (microphone), then TEMP_PI |

## Left out

- Hardware and bus setup (bcm2835 and SPI initialisation, the reset pulse, RF69 frequency and power): device I/O.
- `RHReliableDatagram::available` and `recvfromAck`: library calls whose code is not part of this model. Their result is an input: the buffer contents, `len` and `from`, or no frame.
- The SPI transfer in `readAdc`: a foreign bus call. The ADC's 3-byte answer is an input.
- curl setup, the request itself, the user/password option and cleanup: network I/O. A post is the event (identifier, reading), and `Url` gives its URL.
- The union reinterpretation of the 4 bytes as a float, the `getTemp` scaling `sensorVal * 3.3 * 100 / 1023`, and `std::to_string`: floating point. A record keeps its raw bytes, the local post carries the raw 10-bit ADC reading, and the value text of a URL is a parameter.
- The SIGINT handler and the `force_exit` polling loop: signal-driven cancellation. `Poll` models one turn of the loop.
- `printf`/`fprintf` logging, including the packet number and the second `getTemp()` call that exists only for printing.
- HandleFrame: undefined behaviour (an out-of-bounds write or read) is modelled as a fault that stops the pass; the C++ program would go on with unpredictable memory contents.
