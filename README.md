# LoRa fire-detection telemetry: gateway and workers in Dafny

This project models three programs of a LoRa-based fire-detection system:

- **The Raspberry Pi gateway** (`rpi-to-mqtt/rpi-mqtt.py`). It drives an
  SX1278 transceiver over SPI. It initialises the radio and then loops:
  1. Read RegIrqFlags and write the flags back.
  2. Drop CRC failures, otherwise drain the received frame from the
     256-byte FIFO.
  3. Pre-filter the frame: it must be braced, parse as JSON and carry a
     truthy `node`.
  4. Read RSSI and SNR, and acknowledge the node with `ACK:<node>`.
  5. Publish one envelope `{gateway, rssi, snr, received_at, payload}` on
     `lora/uplink`.
- **The plain worker** (`worker/main.py`). It takes each envelope from the
  broker, skips it when there is no usable node, and otherwise stores a
  ten-column row with one INSERT and one commit.
- **The ML worker** (`worker/ai_inference.py`). It extracts the same
  fields and classifies the feature vector `[smoke, temp, flame, hum]`. It
  then tries to store the reading with the prediction and its confidence,
  commit, and notify the API. As written, that INSERT always fails, so
  nothing is stored or notified (see Findings).

## Modules

- `Bits` (`bits.dfy`): bytes, plus `&`, `|` and `& ~`, defined bit by bit on
  integers.
- `Codec` (`codec.dfy`): the SX1278 register map and the two-byte SPI frames
  of `write_reg` and `read_reg`. It also holds the frequency, RSSI and SNR
  conversions.
- `Utf8` (`utf8.dfy`): `str.encode("utf-8")` and a strict decoder as its
  partner.
- `Transceiver` (`radio.dfy`):
  - `ChipState` is the chip as a value: 128 registers, the FIFO and the FIFO
    pointer.
  - `Apply` gives the chip's response to one register access. RegIrqFlags is
    write-1-to-clear. Every FIFO access advances the pointer modulo 256.
  - The class `Radio` holds `regs`, the `fifo` array, `ptr` and a `trace`.
    The trace records every SPI transfer and MQTT publish in order.
  - The class's methods model `write_reg`, `read_reg`, `set_frequency`,
    the FIFO drain and `send_ack`.
- `Gateway` (`gateway.dfy`):
  - the radio set-up;
  - the pre-filter;
  - one iteration of the receive loop, as the method `ReceiveStep`;
  - the functions that specify that iteration: `Expected` for the outcome,
    `StepTrace` for the traffic and `StepAfter` for the chip afterwards;
  - the lemmas that state what the iteration promises.
- `Json`, `Telemetry` and `Database` (`json.dfy`, `telemetry.dfy`,
  `database.dfy`):
  - JSON values;
  - `dict.get` and Python truthiness;
  - the field extraction both workers share;
  - the database calls as a list of effects, with `Accepts` as the driver's
    check of the statement and its parameter values.
- `PlainWorker` and `AiWorker` (`plain_worker.dfy`, `ai_worker.dfy`): the two
  `on_message` handlers. Each is a function from the decoded message to a
  result and the ordered effects.
- `Pipeline` (`pipeline.dfy`): the envelope the gateway publishes produces a
  reading in the workers, and that reading carries the gateway's values.

The gateway's environment enters the model as parameters:

| parameter | stands for |
|---|---|
| `parse` | `json.loads(payload.decode(errors="replace"))`; `None` means it raised |
| `repr` | `str()` of a non-string node |
| `ts` | the local timestamp |
| `raised` | the flags the chip raises before each transmit-done poll; its length is the number of polls that fit in the 0.8 s deadline |

The workers take the decoded message as an `Option<Json>`: `None` when
decoding or `json.loads` raises. Their other parameters:

| parameter | stands for |
|---|---|
| `predict` | the scaler plus `predict_proba` |
| `classNames` | the loaded class list |
| `percent` | the confidence formatting |
| `down` | which database calls raise |

Where the system's documented design and its code differ, the model follows
the code:

- The envelope key is `gateway`.
- The workers neither check nor store the gateway id.
- The ML worker's `new_reading` body has no gateway id.
- Neither worker rolls back, or closes the connection, when `execute` or
  `commit` raises.
- The ML worker's INSERT can never succeed as written (see Findings).

## Model

| member | source | states |
|---|---|---|
| Bits.MaskBelow128 | rpi-to-mqtt/rpi-mqtt.py:77-78 | `a & 0x7F` keeps the value modulo 128 and is below 128; bit 0x80 is set exactly for bytes of at least 128 |
| Bits.OrHigh | rpi-to-mqtt/rpi-mqtt.py:75 | for a seven-bit address, `a \| 0x80` is `a + 128` |
| Bits.ClearSelf | rpi-to-mqtt/rpi-mqtt.py:184 | writing a flag byte back to a write-1-to-clear register clears every flag in it: `x & ~x == 0` |
| Bits.ClearAfterOr | rpi-to-mqtt/rpi-mqtt.py:184 | clearing `a` after `b` was OR-ed in keeps exactly the bits of `b` not in `a`: `(a \| b) & ~a == b & ~a` |
| Bits.ClearDisjoint | rpi-to-mqtt/rpi-mqtt.py:184 | clearing bits that `b` does not have leaves `b` unchanged |
| Bits.ClearAll | rpi-to-mqtt/rpi-mqtt.py:131 | writing 0xFF to RegIrqFlags clears every flag |
| Bits.OrHasFlag | rpi-to-mqtt/rpi-mqtt.py:136 | a flag is set in `a \| b` exactly when it is set in `a` or in `b` (flags accumulate in RegIrqFlags) |
| Codec.WriteFrame | rpi-to-mqtt/rpi-mqtt.py:74-75 | `write_reg`'s frame has two bytes: `a \| 0x80`, which has the write bit set, then `v & 0xFF` |
| Codec.ReadFrame | rpi-to-mqtt/rpi-mqtt.py:77-78 | `read_reg`'s frame has two bytes: `a & 0x7F`, which has the write bit clear, then a dummy 0 |
| Codec.DecodeWriteFrame | rpi-to-mqtt/rpi-mqtt.py:74-75 | the chip reads a write frame as a write to the same address of `v & 0xFF`, so every stored value is a byte |
| Codec.DecodeReadFrame | rpi-to-mqtt/rpi-mqtt.py:77-78 | the chip reads a read frame as a read of the same address |
| Codec.Frf | rpi-to-mqtt/rpi-mqtt.py:87 | `int(freq / 61.03515625)` is the integer quotient of `freq * 256` by 15625, truncated toward zero for either sign |
| Codec.FrfBytes | rpi-to-mqtt/rpi-mqtt.py:88-90 | the three bytes written to RegFrf (`frf >> 16`, `frf >> 8`, `frf`, each masked) reassemble to `frf mod 2^24`, for every integer `frf` |
| Codec.AssembleFrfBytes | rpi-to-mqtt/rpi-mqtt.py:88-90 | splitting an assembled 24-bit value gives back the same three bytes |
| Codec.Frf433MHz | rpi-to-mqtt/rpi-mqtt.py:155 | 433 MHz programs Frf = 0x6C4000, that is the bytes 0x6C, 0x40, 0x00 |
| Codec.RssiDbm | rpi-to-mqtt/rpi-mqtt.py:92-93 | RSSI in dBm lies in [-164, 91] for every register byte |
| Codec.RssiRoundTrip | rpi-to-mqtt/rpi-mqtt.py:92-93 | the conversion is a bijection between register bytes and [-164, 91] |
| Codec.SnrQuarters | rpi-to-mqtt/rpi-mqtt.py:96-97 | the two's-complement reading lies in [-128, 127], is negative exactly when bit 7 is set, and is the byte modulo 256 |
| Codec.SnrDb | rpi-to-mqtt/rpi-mqtt.py:95-97 | `snr_db()` is a quarter of the two's-complement reading and lies in [-32, 31.75] |
| Codec.SnrQuartersRoundTrip | rpi-to-mqtt/rpi-mqtt.py:96-97 | every quarter-dB value in [-128, 127] is what the byte `q mod 256` reads as, so with `SnrQuarters`' own contract the reading is a bijection between bytes and [-128, 127] |
| Utf8.Encode | rpi-to-mqtt/rpi-mqtt.py:119 | the encoding has between one and four bytes per character |
| Utf8.DecodeEncode | rpi-to-mqtt/rpi-mqtt.py:119 | decoding the encoded acknowledgment gives back the exact text |
| Utf8.EncodeAppend | rpi-to-mqtt/rpi-mqtt.py:119 | encoding `"ACK:" + node` encodes the prefix, then the node |
| Utf8.EncodeAscii | rpi-to-mqtt/rpi-mqtt.py:119 | ASCII text encodes as its own codes, one byte each |
| Transceiver.Radio.Xfer | rpi-to-mqtt/rpi-mqtt.py:75 | one `spi.xfer2`: the new chip state and the reply are the chip's response to the decoded access, and the transfer is appended to the trace |
| Transceiver.Radio.WriteReg | rpi-to-mqtt/rpi-mqtt.py:74-75 | `write_reg(a, v)`: a FIFO write stores `v & 0xFF` under the pointer and advances it; a pointer write moves the pointer; a flags write clears the flags set in `v`; any other register receives `v & 0xFF` |
| Transceiver.Radio.ReadReg | rpi-to-mqtt/rpi-mqtt.py:77-78 | `read_reg(a)` returns the register's value (the FIFO byte under the pointer, which advances, for REG_FIFO) and changes nothing else |
| Transceiver.Radio.SetReg | rpi-to-mqtt/rpi-mqtt.py:74-75 | an ordinary register receives `v & 0xFF`; nothing else changes |
| Transceiver.Radio.SetPtr | rpi-to-mqtt/rpi-mqtt.py:193 | a pointer write moves the FIFO pointer to `v & 0xFF` |
| Transceiver.Radio.ClearFlags | rpi-to-mqtt/rpi-mqtt.py:184 | a flags write clears the flags where `v` has ones |
| Transceiver.Radio.GetReg | rpi-to-mqtt/rpi-mqtt.py:178 | reading an ordinary register returns its value and leaves the chip unchanged |
| Transceiver.Radio.PopFifo | rpi-to-mqtt/rpi-mqtt.py:195 | a FIFO read returns the byte under the pointer and advances the pointer modulo 256 |
| Transceiver.Radio.PushFifo | rpi-to-mqtt/rpi-mqtt.py:128 | a FIFO write stores the byte under the pointer and advances the pointer modulo 256 |
| Transceiver.Radio.Raise | rpi-to-mqtt/rpi-mqtt.py:135-136 | the chip raises flags by OR-ing them into RegIrqFlags, without SPI traffic |
| Transceiver.Radio.Publish | rpi-to-mqtt/rpi-mqtt.py:234 | `mqttc.publish` appends one publish event and leaves the chip alone |
| Transceiver.Radio.SetFrequency | rpi-to-mqtt/rpi-mqtt.py:86-90 | RegFrf receives the three bytes of `Frf(freq)`, which the chip assembles into `Frf(freq) mod 2^24` |
| Transceiver.Radio.ReadFifo | rpi-to-mqtt/rpi-mqtt.py:195 | `n` reads return the `n` bytes from the pointer on, wrapping at 256; the pointer ends `n` further on |
| Transceiver.Radio.WriteFifo | rpi-to-mqtt/rpi-mqtt.py:127-128 | byte `k` of the message lands in slot `(ptr + k) mod 256`, one write per byte, in order |
| Transceiver.Radio.PollTxDone | rpi-to-mqtt/rpi-mqtt.py:134-137 | the poll stops at the first read that shows TX_DONE; its result is whether any poll before the deadline saw the flag |
| Transceiver.Radio.SendAck | rpi-to-mqtt/rpi-mqtt.py:117-140 | the chip ends as `Acknowledged` describes, whether or not TX_DONE was seen, and the traffic is the set-up, the poll and the return to RX |
| Transceiver.Radio.LoadAndTransmit | rpi-to-mqtt/rpi-mqtt.py:121-132 | standby, TX base and pointer at 0, the message from FIFO slot 0, RegPayloadLength `len & 0xFF`, flags cleared, TX mode |
| Transceiver.Radio.BackToReceive | rpi-to-mqtt/rpi-mqtt.py:139-140 | every flag is cleared and the mode is RX continuous (0x85) |
| Transceiver.WrittenAt | rpi-to-mqtt/rpi-mqtt.py:127-128 | byte `j` of a FIFO write stays in slot `(p + j) mod 256` unless a byte 256 or more positions later overwrites it |
| Transceiver.WrittenFromZero | rpi-to-mqtt/rpi-mqtt.py:124-128 | a message of at most 256 bytes written from slot 0 fills the first slots in order and leaves the rest unchanged |
| Transceiver.PollStep | rpi-to-mqtt/rpi-mqtt.py:135-137 | each poll shows the flags so far plus the newly raised ones, and polling goes on only while TX_DONE is clear |
| Transceiver.AckRegisters | rpi-to-mqtt/rpi-mqtt.py:121-140 | the register writes of `send_ack`, whatever the poll leaves in RegIrqFlags, amount to `Acknowledged`'s registers |
| Gateway.CheckFrame | rpi-to-mqtt/rpi-mqtt.py:198-209 | a frame is accepted exactly when it is braced, parses to a dict and has a truthy `node`; it is rejected as not braced, or as unparsable, exactly in those cases |
| Gateway.BracedText | rpi-to-mqtt/rpi-mqtt.py:196-200 | for a frame that is well-formed UTF-8, `Braced`, the test on the bytes, holds exactly when the decoded text starts with `{` and ends with `}` |
| Gateway.EnvelopeJson | rpi-to-mqtt/rpi-mqtt.py:225-231 | the published dict has exactly the keys `gateway`, `rssi`, `snr`, `received_at` and `payload` (no `gateway_id`), and carries the parsed frame unchanged |
| Gateway.FrameOutcome | rpi-to-mqtt/rpi-mqtt.py:190-234 | the receive path either drops the frame or relays it |
| Gateway.Expected | rpi-to-mqtt/rpi-mqtt.py:178-234 | one iteration is idle exactly when no flag is pending. It is a CRC drop exactly when CRC_ERROR is set, with or without RX_DONE. It is a plain clear exactly when some flag is set but neither of the two. It relays only a received frame that passes the pre-filter |
| Gateway.FrameIgnoresFlags | rpi-to-mqtt/rpi-mqtt.py:184-195 | the receive path does not depend on RegIrqFlags, so clearing the flags first changes nothing in it |
| Gateway.RejectedFrame | rpi-to-mqtt/rpi-mqtt.py:198-209 | a rejected frame is dropped for the pre-filter's reason after the drain, with the pointer left past the frame |
| Gateway.AcceptedFrame | rpi-to-mqtt/rpi-mqtt.py:211-234 | an accepted frame gives, in order, the drain, RSSI and SNR, the acknowledgment and the publish of the envelope; the chip ends acknowledged |
| Gateway.IdleStep | rpi-to-mqtt/rpi-mqtt.py:180-182 | no flag pending: the outcome is idle, nothing follows the flag read, and the chip is unchanged |
| Gateway.FlagsOnlyStep | rpi-to-mqtt/rpi-mqtt.py:184-188 | flags without RX_DONE, or with CRC_ERROR: only the write-back, then a CRC drop or a plain clear |
| Gateway.FrameStep | rpi-to-mqtt/rpi-mqtt.py:184-190 | RX_DONE without CRC_ERROR: the write-back, then the receive path on the chip with its flags cleared |
| Gateway.ReceiveStep | rpi-to-mqtt/rpi-mqtt.py:178-234 | one loop iteration returns `Expected`, appends `StepTrace` and leaves the chip as `StepAfter` |
| Gateway.Service | rpi-to-mqtt/rpi-mqtt.py:180-234 | the loop body after the flag read, with the same specification |
| Gateway.WriteBack | rpi-to-mqtt/rpi-mqtt.py:184 | writing the flags back as read leaves none pending and changes nothing else |
| Gateway.ReceiveFrame | rpi-to-mqtt/rpi-mqtt.py:190-234 | the receive path returns `FrameOutcome`, appends `FrameTrace` and leaves the chip as `FrameAfter` |
| Gateway.Drain | rpi-to-mqtt/rpi-mqtt.py:191-195 | the payload is RegRxNbBytes bytes from RegFifoRxCurrentAddr; the pointer ends past them |
| Gateway.ReadMetrics | rpi-to-mqtt/rpi-mqtt.py:212-213 | RSSI and SNR are the conversions of the two metric registers; the chip is unchanged |
| Gateway.SetFrontEnd | rpi-to-mqtt/rpi-mqtt.py:157-161 | PA 0x8F, LNA 0x23, RX base 0 and pointer 0 |
| Gateway.SetModem | rpi-to-mqtt/rpi-mqtt.py:163-166 | modem configuration 0x72, 0xC4, 0x0C and sync word 0x12 |
| Gateway.Wake | rpi-to-mqtt/rpi-mqtt.py:147-152 | sleep, then standby; the version read is RegVersion's value |
| Gateway.Tune | rpi-to-mqtt/rpi-mqtt.py:155 | RegFrf holds 0x6C, 0x40, 0x00 |
| Gateway.StartReceive | rpi-to-mqtt/rpi-mqtt.py:168-169 | flags cleared, RX continuous |
| Gateway.InitRadio | rpi-to-mqtt/rpi-mqtt.py:147-169 | the final register file, FIFO and pointer after set-up, with the whole set-up traffic in order |
| Gateway.InitRegisters | rpi-to-mqtt/rpi-mqtt.py:147-169 | the set-up's register writes in program order amount to the final register file |
| Gateway.WritesToDecodes | rpi-to-mqtt/rpi-mqtt.py:74-75 | a transfer counts as a write to `a` exactly when the chip decodes it as one |
| Gateway.FrameTargets | rpi-to-mqtt/rpi-mqtt.py:74-78 | a read frame writes nothing; a write frame writes only its own register |
| Gateway.RxLogQuiet | rpi-to-mqtt/rpi-mqtt.py:191-195 | the drain neither changes the mode nor writes the FIFO |
| Gateway.PollLogSpi | rpi-to-mqtt/rpi-mqtt.py:134-137 | the transmit-done poll consists of SPI reads only |
| Gateway.IdleReadsOnce | rpi-to-mqtt/rpi-mqtt.py:178-182 | an iteration is idle exactly when no flag is set, and then its only traffic is one read of RegIrqFlags |
| Gateway.WriteBackAsRead | rpi-to-mqtt/rpi-mqtt.py:184 | with some flag set, the second transfer writes the flags back exactly as read |
| Gateway.CrcErrorDrops | rpi-to-mqtt/rpi-mqtt.py:186-188 | CRC_ERROR drops the frame even with RX_DONE set; the traffic is only the read and the write-back |
| Gateway.NotRelayedIsQuiet | rpi-to-mqtt/rpi-mqtt.py:186-209 | an iteration that does not relay never publishes, never changes the mode and never writes the FIFO: no acknowledgment and no message |
| Gateway.RelayOrder | rpi-to-mqtt/rpi-mqtt.py:211-234 | a relayed frame: nothing transmitted before the metrics; RSSI then SNR; then the acknowledgment from standby on; then exactly one publish, last, on `lora/uplink`, carrying GW1, the metrics read, the timestamp and the parsed frame |
| Gateway.RelayTrace | rpi-to-mqtt/rpi-mqtt.py:178-234 | the traffic of a relaying iteration written out, and the envelope it publishes |
| Gateway.RelayPrefixQuiet | rpi-to-mqtt/rpi-mqtt.py:178-195 | what precedes the metrics on the relay path is quiet and has RegRxNbBytes + 5 transfers |
| Gateway.AckLogSpi | rpi-to-mqtt/rpi-mqtt.py:117-140 | the acknowledgment publishes nothing and starts with the standby write |
| Gateway.AckDecodes | rpi-to-mqtt/rpi-mqtt.py:119 | the bytes the node receives decode to `"ACK:"` followed by the node text |
| Gateway.StringNodeAck | rpi-to-mqtt/rpi-mqtt.py:119 | `NodeText` of a string node is the string itself, without quotes and independent of `str()`: the acknowledgment is the ASCII bytes `ACK:` followed by the node's UTF-8, and decodes to `ACK:` followed by the node |
| Gateway.FlagsHandledOnce | rpi-to-mqtt/rpi-mqtt.py:178-188 | with flags raised only during the transmit-done poll, every iteration leaves no flag pending, so the next iteration is idle |
| Gateway.InterruptedWriteBack | rpi-to-mqtt/rpi-mqtt.py:178-184 | with an interrupt raising `late` between the read and the write-back: one read and one write-back of the value read, and the register is left holding `late & ~irq`, everything else unchanged |
| Gateway.LateFlags | rpi-to-mqtt/rpi-mqtt.py:178-184 | writing back what was read keeps the late flags not already read: all of them when none was read, none when every one was |
| Gateway.DropKeepsFifo | rpi-to-mqtt/rpi-mqtt.py:184-209 | a drop keeps the FIFO and the registers apart from the flags; a CRC drop keeps the pointer; any other drop leaves it just past the frame |
| Gateway.RelayLeavesAck | rpi-to-mqtt/rpi-mqtt.py:117-140 | after a relay the FIFO starts with the acknowledgment and is otherwise unchanged; RegPayloadLength and the pointer are its length modulo 256; the mode is RX continuous, TX base 0 |
| Json.Get | worker/main.py:36-37 | `.get` raises on a non-dict, returns a present key's value even when it is null, and returns the default only for an absent key |
| Json.TruthyIffNotFalsyConstant | worker/main.py:39 | `not node` holds exactly for None, False, 0, "", [] and {} |
| Telemetry.Extract | worker/main.py:35-54 | extraction raises exactly for a non-dict message or a non-dict payload; an extracted reading has the payload's truthy node |
| Telemetry.ExtractFollowsOrigins | worker/main.py:44-54 | every extracted field is the value its key names, with the default (0 for flame and smoke, None otherwise) only for an absent key |
| Telemetry.SkipIff | worker/main.py:36-41 | a dict message is skipped exactly when it has no payload key, or its payload has no node or a falsy one |
| Telemetry.NullIsNotAbsent | worker/main.py:49 | a present `flame: null` stays null and is not replaced by 0 |
| Database.Transaction | worker/main.py:57-64 | the calls stop at the first that raises; all succeed exactly when none is down and the driver accepts the statement |
| Database.FailedTransaction | worker/main.py:57-71 | a failed transaction has attempted connect and has not committed, notified or closed anything |
| PlainWorker.Row | worker/main.py:44-55 | ten values, each the reading's value for the column at the same position |
| PlainWorker.OnMessage | worker/main.py:29-71 | stored exactly when the message decodes, has a usable node and the transaction goes through; skipped exactly for the skip rule; each exception maps to a failure stage and never escapes |
| PlainWorker.InsertAcceptsRows | worker/main.py:59-63 | ten columns, ten placeholders and ten values, so the driver accepts a row exactly when it can convert every value (none is a list or a dict) |
| PlainWorker.UnbindableFailsAtExecute | worker/main.py:57-71 | a field holding a list or a dict makes `execute` raise: the handler has connected and opened a cursor, and it commits nothing and closes nothing |
| PlainWorker.ListTemperatureNotStored | worker/main.py:57-71 | the message `{"payload": {"node": "N1", "temp": [1]}}` fails at `execute` |
| PlainWorker.RowFollowsColumns | worker/main.py:44-62 | each row value is the message field its column names |
| PlainWorker.NoRowNoConnection | worker/main.py:39-57 | a message skipped or failing before the row exists makes no database call |
| PlainWorker.StoredEffects | worker/main.py:57-66 | with the database up and a row the driver can convert: connect, cursor, insert of the row, commit, close cursor, close connection |
| PlainWorker.FailureLeavesConnectionOpen | worker/main.py:57-71 | a raising database call ends the handler; neither the cursor nor the connection is closed |
| AiWorker.Features | worker/ai_inference.py:73-74 | the feature vector is smoke, temperature, flame, humidity, each the reading's value for that column |
| AiWorker.FeaturesFollowColumns | worker/ai_inference.py:63-74 | each feature is the message field its column names |
| AiWorker.FeaturesExample | worker/ai_inference.py:73-74 | a concrete message yields the vector [920, 52.3, 1, 25] |
| AiWorker.ArgMax | worker/ai_inference.py:78 | `np.argmax` is the first index of a maximal element |
| AiWorker.MaxIsMaximum | worker/ai_inference.py:79 | `np.max` is an element and bounds every element |
| AiWorker.ConfidenceIsArgMaxValue | worker/ai_inference.py:78-79 | the confidence is the probability at the selected index |
| AiWorker.Infer | worker/ai_inference.py:76-79 | inference succeeds exactly when the classifier answers with a non-empty vector whose argmax indexes the class list; the label is that class and the confidence bounds every probability |
| AiWorker.Params | worker/ai_inference.py:88-102 | thirteen parameters aligned with the thirteen columns, prediction and confidence last |
| AiWorker.ParamsFollowColumns | worker/ai_inference.py:85-102 | each parameter but the last two is the field its column names; `received_at` fills both time columns |
| AiWorker.NewReadingMatchesRow | worker/ai_inference.py:104-119 | each notified key carries the value stored for its column, the confidence apart, which is sent as text |
| AiWorker.NewReading | worker/ai_inference.py:104-119 | the notification is a dict whose keys are `NOTIFIED_KEYS`, with no `gateway_id` |
| AiWorker.ColumnKeys | worker/ai_inference.py:85-119 | `NOTIFIED_KEYS` are exactly the stored columns other than `local_timestamp` |
| AiWorker.Handle | worker/ai_inference.py:46-138 | skipped exactly for the skip rule; a failure at decode, lookup or inference exactly when that step raises |
| AiWorker.OnMessageAsWritten | worker/ai_inference.py:83-102 | the handler as written never stores |
| AiWorker.OnMessage | worker/ai_inference.py:46-138 | with one placeholder per column, a message is stored exactly when all of the following hold: it decodes; it has a usable node; the classifier answers; every parameter is convertible; connect, cursor, execute and commit all succeed. What it stores is accepted by the driver |
| AiWorker.WrittenInsertRefused | worker/ai_inference.py:83-102 | the written statement is refused for every parameter tuple; the corrected one is refused only for a value the driver cannot convert |
| AiWorker.WrittenInsertNeverStores | worker/ai_inference.py:83-138 | as written, no message is committed, notified or closed |
| AiWorker.EarlyReturnTouchesNothing | worker/ai_inference.py:53-79 | whatever the statement, so in the handler as written and in the corrected one, a message that is skipped or fails lookup or inference makes no database call and no notification |
| AiWorker.CorrectedOrder | worker/ai_inference.py:81-133 | corrected, with the database up and convertible values: connect, cursor, insert, commit, notify, close cursor, close connection, storing the argmax class and its probability |
| AiWorker.NotifyOnlyAfterCommit | worker/ai_inference.py:103-133 | a notification comes only right after the commit and is followed by closing the cursor and the connection |
| Pipeline.ExtractEnvelope | rpi-to-mqtt/rpi-mqtt.py:225-231 | a worker extracts from the envelope the node's fields, the gateway timestamp and the metrics |
| Pipeline.RelayedFramesAreExtracted | rpi-to-mqtt/rpi-mqtt.py:211-234 | every relayed frame reaches the workers as an extracted reading with the node, RSSI, SNR and timestamp the gateway saw |

## Left out

- SPI and GPIO set-up, `reset_lora` and every `time.sleep`: these are hardware timing with no effect on the register-level behaviour modelled here.
- Transceiver.Radio.PollTxDone: the 0.8 s wall-clock deadline is modelled as the length of `raised`, the number of polls that fit before it. Real time is not modelled.
- The MQTT client, its TLS session and its connection loop. A publish is an event in the trace; whether the broker receives the message is not modelled.
- `json.loads` and `json.dumps`. The gateway takes `parse` as a parameter and the workers take the decoded message. `EnvelopeJson` is the dict passed to `json.dumps`, not its text.
- `payload.decode(errors="replace")`. The brace test is stated on the bytes, because `{` and `}` are ASCII and lenient decoding maps them only to and from themselves.
- Gateway.NodeText: `str(node)` for a node that is not a string is the parameter `repr`. Because JSON numbers are exact reals here, `5` and `5.0` are the same value, so no `repr` can give the different texts `str(5)` ("5") and `str(5.0)` ("5.0") that the source sends for a numeric node.
- Gateway.FlagsHandledOnce: within one modelled iteration the chip raises flags only during the transmit-done poll. An interrupt between the flag read (rpi-to-mqtt/rpi-mqtt.py:178) and the write-back (:184) is modelled apart, by `Gateway.InterruptedWriteBack` and `Gateway.LateFlags`: a flag not among those read stays pending, and a repeat of one already read is cleared unseen. An interrupt during the drain (:191-195) is not modelled; for such a flag, "no flag pending" does not hold.
- Lone surrogates in a node string such as `{"node": "\ud800"}`. Dafny's `char` cannot hold them, so the model does not capture the UnicodeEncodeError that `.encode("utf-8")` raises at rpi-to-mqtt/rpi-mqtt.py:119. `send_ack` runs outside the inner `try`, and the loop catches only KeyboardInterrupt, so that error would end the gateway.
- Gateway.RelayLeavesAck: requires an acknowledgment of at most 256 bytes. Once a longer message wraps the FIFO, the contents are stated by `Transceiver.WrittenAt` rather than as a plain prefix.
- Transceiver.Radio.constructor: the FIFO starts all-zero. The chip's reset contents are not modelled, and no property depends on them.
- `datetime.now(PH_TZ).isoformat()`: the timestamp `ts` is an opaque string parameter.
- Floating point. `Codec.Frf` is the exact quotient ⌊freq·256/15625⌋. The source computes `int(freq / 61.03515625)` with a rounded float division. The two agree while the quotient is below 2^40 (freq below about 6.7·10^13 Hz), which covers every frequency whose Frf fits the chip's 24 bits. Above that, rounding can carry the float up to the next integer. JSON numbers are exact reals, so an integer and the equal float coincide (see the `Gateway.NodeText` line). `f"{confidence*100:.2f}%"` is the parameter `percent`.
- The classifier: `joblib` loading, the scaler and `predict_proba` are the parameter `predict`. A missing model file makes it return `None`, since the NameError it causes is caught like any other exception.
- MySQL semantics. Connect, cursor, execute and commit are effects. Which of them raise because of the server or the network is the parameter `down`. `Database.Accepts` is the driver's own check: one placeholder per value, and every value convertible (not a list or a dict). Type and range errors that the server itself raises, and a raising `close`, are not modelled.
- PlainWorker.StoredEffects: requires a row the driver can convert. A row holding a list or a dict fails at `execute`, which `PlainWorker.UnbindableFailsAtExecute` states.
- AiWorker.CorrectedOrder: requires convertible parameter values. Otherwise the corrected handler fails at `execute`, as `Database.Transaction` and the iff in `AiWorker.OnMessage` state.
- The HTTP notification's outcome: its failure is caught inside the `try`/`finally`, so the result and the closing calls do not depend on it. Only the attempt is recorded.
- `print` logging in all three programs: it has no effect on the state or the traffic.
- `api/main.py`: read-only HTTP endpoints over the database.
- The incident state machine, gateway auto-provisioning and incident notifications: no part of the three modelled programs implements them.

## Findings

| source | as written | input that shows it | evidently intended | confidence | as-written member | corrected member |
|---|---|---|---|---|---|---|
| worker/ai_inference.py:83-102 | the INSERT names 13 columns but has 11 `%s` placeholders, and 13 parameters are passed; the driver raises at `execute`, the outer `except` swallows it, so nothing is committed or notified and the connection is left open | any message with a truthy node that the classifier handles, e.g. the one in `AiWorker.FeaturesExample` | one placeholder per column: insert, commit, notify, then close the cursor and the connection | not executed | AiWorker.WrittenInsertNeverStores | AiWorker.CorrectedOrder |
