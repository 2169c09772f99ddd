# CH341A SPI protocol engine

A model of the byte-level protocol engine of ch341prog. The program drives a
CH341A USB bridge as an SPI master for serial flash chips. The engine covers:

- bit reversal of every byte crossing the SPI side (`swapByte`);
- the control frames for chip select and bus speed (`ch341SpiCs`, `ch341SetStream`);
- the synchronous SPI exchange and the JEDEC capacity probe built on it (`ch341SpiStream`, `ch341SpiCapacity`). The exchange frame carries a single stream opcode at offset 32, with all the payload after it. The read frame instead puts an opcode at every multiple of 32. A payload of more than 31 bytes therefore runs on where the following packets' opcodes would go (`Stream.StreamFrameUntiled`). The 4-byte JEDEC probe fits in the first packet and is not affected;
- the pipelined flash read (`ch341SpiRead`). It splits a read into windows of at most 4096 outbound bytes, lays out each window's frame, and reassembles the answer through the bulk-in callback (`cbBulkIn`) and its wait loop.

The USB side is a `Device` object (module `Transport`) driven by a script of outcomes fixed in advance:

- one success flag per synchronous bulk-out write;
- one reply (bytes, or failure) per synchronous bulk-in read;
- one event per round of the event pump: a completed packet, a failed transfer, or nothing yet.

Every frame handed to the bulk-out endpoint is logged in `Device.out`. A script that has run out stands for a device that no longer answers.

The C code is imperative, and so is the model:

- `ch341SpiStream`, `cbBulkIn` and `ch341SpiRead` are methods with loops over arrays.
- `swapByte` is a method whose loop shifts the bits of one byte; it touches no array.
- `ch341SpiCs` is a method that writes through an advancing index.
- The callback's global counter and cursor are fields of the class `Reassembly.InboundTransfer`.
- Each method is proved against a pure specification:
  - `Reverse` and `Swapped` for bit reversal;
  - `CsFrame` and `SpeedFrame` for the control frames;
  - `IsStreamFrame` for the exchange frame;
  - `PlanWindow` and `Plan` for the windows of a read;
  - `WindowBuffer` for the outbound buffer;
  - `Collect` for one window's wait loop;
  - `Step` and `Run` for the whole read.
- Properties of the read are proved about `Run` in `ReadProofs`. The flash clocks back one byte for each SPI byte the frame carries. `AnsweredWindow`, `FinalWindow` and `RunFrames` take as a premise an answer of the command and the whole payload. As written, a last window whose command and payload fill its last stream packet is sent 31 bytes short (ch341a.c:235), so for that window the premise describes an answer the flash cannot give; `ShortWindowRead` states what such a read does instead.

Where the driver has defects, the model follows the code as written, except where "Left out" says otherwise: stores past the end of the caller's buffer are dropped, `SpiStream` refuses the length 4064 that the guard as written admits, and the marker loop of `PrefillOut` stops at the end of the buffer. `Step` and `Run` take a `Variant`:

- `AsWritten` is what the driver does, and `ReadEngine.SpiRead` is proved equal to it.
- `Corrected` keeps the inbound cursor across windows, sends the low 24 address bits, sends the frame length the layout needs, and ends the read with -1 at the first failed transfer.

The section "Findings" pairs each defect with both variants.

Integer widths are explicit:

- bytes are `bv8` and the flash address is `bv32`, so the address wraps as a `uint32_t` does;
- the read's `uint32_t ret` is the subtype `U32`, and its conversion to the `int32_t` return value is `Int32`;
- lengths are unbounded naturals, because none of the modelled paths can overflow them.

## Model

| member | source | states |
|---|---|---|
| Bits.Reverse | ch341a.c:99-110 | bit i of the result is bit 7 - i of the input |
| Bits.Swapped | ch341a.c:133-134 | every byte of a sequence reversed, same length and order |
| Bits.SwapByte | ch341a.c:100-110 | the shift-and-feed loop computes the bit reversal of its input |
| Bits.Involution | ch341a.c:99-110 | reversing twice gives the byte back |
| Bits.Injective | ch341a.c:99-110 | distinct bytes have distinct reversals, and conversely |
| Bits.KnownValues | ch341a.c:221 | 0x00 and 0xFF are fixed, 0x01 becomes 0x80, and the read opcode 0x03 becomes the hard-coded 0xC0 |
| Bits.SwappedInvolution | ch341a.c:140-143 | swapping a sequence twice gives it back |
| Bits.SwappedAppend | ch341a.c:183-185 | swapping commutes with concatenation, so packets can be swapped one by one |
| Transport.WriteRet | ch341a.c:74-85 | a synchronous write returns its length when accepted and -1 otherwise |
| Transport.Device.BulkWrite | ch341a.c:74-85 | one write logs exactly buf[..len], consumes one outcome and returns len or -1 |
| Transport.Device.BulkRead | ch341a.c:74-85 | one read stores min(reply, len) bytes at the front of buf and returns their count, or returns -1 and stores nothing |
| Transport.Device.SubmitOut | ch341a.c:242-244 | submitting the asynchronous bulk-out logs the frame and consumes no outcome |
| Transport.Device.Pump | ch341a.c:247 | one pump round delivers the next scripted event; an exhausted script fails |
| Framer.CsFrame | ch341a.c:113-120 | pin-stream opcode, output levels 0x36 with chip select low when selected and high otherwise, a direction byte only when selected, terminator |
| Framer.CsFrameBytes | ch341a.c:113-120 | the frames are [0xAB, 0xB6, 0x7F, 0x20] and [0xAB, 0xB7, 0x20] |
| Framer.SpiCs | ch341a.c:113-120 | writes the chip-select frame at the front of the buffer and leaves every later byte unchanged |
| Framer.SpeedFrame | ch341a.c:89-97 | three bytes: the I2C-stream opcode, 0x60 with the low three bits of the speed, the terminator |
| Framer.SpeedFrameLowBits | ch341a.c:93 | two speeds give the same frame if and only if their low three bits agree |
| Framer.SetStream | ch341a.c:89-97 | sends exactly the speed frame and returns the write's result |
| Stream.SourceGuardOverrun | ch341a.c:128-129 | the length guard as written admits exactly one length, 4064, whose frame does not fit in 4096 bytes |
| Stream.SpiStream | ch341a.c:123-148 | refuses longer payloads with no transfer; else sends the stream frame, swaps the received bytes in place, deasserts and returns 0; every failure returns -1 and the first two skip the deassert |
| Stream.IsStreamFrame | ch341a.c:130-135 | a frame is the stream frame for a payload exactly when it has the chip-select frame at 0..3, 0xA8 at 32, and its bytes from 33 on reverse back to the payload |
| Stream.BuildStreamFrame | ch341a.c:130-134 | chip-select frame at 0..3, 0xA8 at 32, the reversed payload from 33 on |
| Stream.SwapInPlace | ch341a.c:139-143 | the first n bytes are reversed in place and the rest stay as they were |
| Stream.SpiCapacity | ch341a.c:151-167 | sends the probe 0x9F 0 0 0; succeeds exactly when all three transfers do, and then returns the reversed fourth reply byte, or, for a reply shorter than 4 bytes, whatever the uninitialised `in[3]` held, since only the received bytes are swapped (ch341a.c:141-143, 166); else -1. On every path the event script is unchanged and the earlier log is kept. A failed frame write logs one frame and consumes one write outcome. A failed reply logs one frame and consumes one of each. A reply logs the frame and the deassert and consumes two write outcomes and one reply |
| Stream.StreamFrameUntiled | ch341a.c:130-134 | past the first packet, each offset 32 * k of an exchange frame holds a reversed payload byte, not the 0xA8 opcode |
| Stream.StreamFrameUntiledExample | ch341a.c:130-134 | a 40-byte payload whose byte 31 is zero puts 0x00 at offset 64, where the read frame has 0xA8 |
| ReadPlan.WindowConstants | ch341a.c:202-203 | max_pkg_count is 127 and max_payload is 3933; 127 packets of 31 SPI bytes carry exactly the 4 command bytes and 3933 payload bytes |
| ReadPlan.Plan | ch341a.c:218-237 | an empty read has no windows, and every window of a read reads between 1 and 3933 bytes in a frame of at most 4096 |
| ReadPlan.PlanWindow | ch341a.c:227-237 | a full window while more than max_payload remain, else the last one; the packet count is ceil((len + 4) / 31) and the frame fits 4096 bytes |
| ReadPlan.PlanCoversLength | ch341a.c:218-237 | the window payloads add up to the requested length |
| ReadPlan.PlanCount | ch341a.c:218-237 | a read of len bytes takes ceil(len / 3933) windows |
| ReadPlan.PlanFullWindows | ch341a.c:227-231 | every window but the last is a full 127-packet, 4096-byte window |
| ReadPlan.Plan8000 | main.c:18 | the 8000-byte read is two full windows and one of 134 bytes in 5 packets |
| ReadPlan.FrameLen | ch341a.c:233-235 | the frame a window's layout needs holds the 4 command bytes and the payload after the chip-select packet and one opcode per packet |
| ReadPlan.ShortFinalFrame | ch341a.c:235 | the sent frame is 31 bytes short exactly for a last window whose command and payload fill the last packet, and right otherwise |
| ReadPlan.ShortFinalFrameExample | ch341a.c:235 | a 27-byte read needs 64 bytes and sends 33 |
| ReadPlan.SentLen | ch341a.c:227-236 | the frame length sent for a window lies between one packet and 4096 bytes, and is the needed length when corrected |
| ReadLayout.Filler | ch341a.c:211-213 | the prefill holds 0xA8 at every multiple of 32 from 32 on, and 0xFF elsewhere |
| ReadLayout.MarkerLoopOverrun | ch341a.c:212-213 | the marker loop as written writes offset 4096, one past the buffer, and no other offset out of bounds |
| ReadLayout.PrefillOut | ch341a.c:211-213 | the bounded prefill leaves the filler at every offset of the 4096-byte buffer |
| ReadLayout.AddrBytes | ch341a.c:223-226 | three address bytes, reversed |
| ReadLayout.FlashAddress | ch341a.c:223-226 | the address a flash decodes from three reversed bytes is below 2^24 |
| ReadLayout.AddressAsWritten | ch341a.c:223-226 | as written the flash receives add >> 8 |
| ReadLayout.AddressCorrected | ch341a.c:223-226 | corrected, the flash receives the low 24 bits of add |
| ReadLayout.AddressExample | ch341a.c:223-226 | address 0x100 reaches the flash as 0x1 as written, and as 0x100 corrected |
| ReadLayout.WindowBuffer | ch341a.c:211-226 | the window's buffer is prefilled, with the chip-select frame at 0..3, the reversed read opcode at 33 and the address bytes at 34..36 |
| ReadLayout.WindowBufferChangesOnlyAddress | ch341a.c:218-226 | two windows' buffers differ only in the three address bytes |
| ReadLayout.WindowBufferUnique | ch341a.c:218-226 | a prefilled buffer with that frame, opcode and address is the window's buffer |
| ReadLayout.AddrWordShift | ch341a.c:225 | shifting tmp by a byte moves to the next pass of the address loop |
| ReadLayout.AddrWordByte | ch341a.c:224 | pass i of the address loop sends the reversed byte 3 - i of add |
| ReadLayout.NextAddressByte | ch341a.c:224-225 | one pass of the address loop yields the next address byte and the shifted tmp |
| ReadLayout.AddressByteWritten | ch341a.c:224 | storing one address byte keeps the rest of the window and extends the address run |
| ReadLayout.LayoutWindow | ch341a.c:219-226 | the per-window rewrite turns a prefilled buffer into exactly the window's buffer |
| Reassembly.Payload | ch341a.c:182-185 | a packet's contribution is its bytes reversed, less the first four in the first packet of a window |
| Reassembly.Overlay | ch341a.c:184 | writing through the cursor: bytes at the cursor onward are replaced, bytes past the buffer dropped, the rest kept |
| Reassembly.OverlayAppend | ch341a.c:184 | writing s and then t right after it is writing s + t |
| Reassembly.OverlayStep | ch341a.c:184 | one more byte through the cursor changes at most the byte at the cursor |
| Reassembly.Collect | ch341a.c:246-258 | one window's wait loop ends with count pkg_count or -1, and consumes events or has none to consume |
| Reassembly.CollectUnfold | ch341a.c:246-258 | one round of the wait loop as the next event decides it: idle, failed or completed |
| Reassembly.InboundTransfer.FillAndSubmit | ch341a.c:239-241 | arming the transfer with the caller's buffer restarts the cursor at its start |
| Reassembly.InboundTransfer.Resubmit | ch341a.c:255 | resubmission keeps the cursor and the count |
| Reassembly.InboundTransfer.Append | ch341a.c:183-185 | the copy loop stores data[i0..] reversed through the cursor and advances it by that many bytes |
| Reassembly.InboundTransfer.CbBulkIn | ch341a.c:178-193 | a completed packet appends its payload at the cursor and counts one; any other status sets the count to -1 and stores nothing |
| ReadEngine.ToU32 | ch341a.c:207 | an int32_t stored into the uint32_t ret reads back as itself |
| ReadEngine.Int32 | ch341a.c:265 | the returned int32_t is negative exactly when ret has its top bit set |
| ReadEngine.Step | ch341a.c:219-261 | one window leaves less to read and a buffer of the same length |
| ReadEngine.Run | ch341a.c:218-262 | the read loop ends with nothing left to read and the buffer's length unchanged |
| ReadEngine.ExchangeWindow | ch341a.c:238-258 | one window's exchange logs the frame and ends as Collect says: events consumed, count, cursor and the bytes from the buffer's start |
| ReadEngine.WaitRound | ch341a.c:246-257 | one round of the wait loop keeps what the rest of the loop will produce, or ends it with -1 |
| ReadEngine.RemainingStep | ch341a.c:246-257 | the remaining loop after an idle, failed or completed event |
| ReadEngine.PumpRound | ch341a.c:247 | one pump round, and the callback when the transfer finished |
| ReadEngine.NextWindow | ch341a.c:227-237 | the window arithmetic gives PlanWindow's packet count, the sent length, the length left and the advanced address |
| ReadEngine.ReadWindow | ch341a.c:219-261 | one pass of the read loop leaves the state Step(AsWritten) gives |
| ReadEngine.StepAsWritten | ch341a.c:219-261 | the fields of an as-written window: cursor from the buffer's start, ret from the deassert alone |
| ReadEngine.SpiRead | ch341a.c:196-266 | the whole read leaves the device, the caller's buffer and the return value as Run(AsWritten) gives |
| ReadProofs.Packets | ch341a.c:239-240 | a window's answer arrives as completed packets of 31 SPI bytes |
| ReadProofs.PacketsCount | ch341a.c:233-234 | an answer of n bytes takes ceil(n / 31) packets |
| ReadProofs.CollectPackets | ch341a.c:246-258 | the wait loop over a window's packets consumes exactly them and appends the reversed data less the four command bytes |
| ReadProofs.WireData | ch341a.c:182-185 | the data of an answer is four bytes shorter in the first packet |
| ReadProofs.WireDataSplit | ch341a.c:182-185 | an answer's data is its first packet's payload followed by the rest |
| ReadProofs.WindowPackets | ch341a.c:233-234 | a window expects exactly the packets its answer comes in |
| ReadProofs.AnsweredWindow | ch341a.c:238-261 | a fully answered window stores its data at the cursor (at the buffer's start as written), and only the deassert's result decides ret |
| ReadProofs.RunStep | ch341a.c:218 | a read is one window and then the rest |
| ReadProofs.RunLast | ch341a.c:218 | the read stops after a window that leaves nothing |
| ReadProofs.FinalWindow | ch341a.c:232-261 | the last window, answered in full, ends the read with its data stored and the deassert's result |
| ReadProofs.SingleWindowRead | ch341a.c:196-266 | a read of one window whose frame is sent in full ((len + 4) % 31 != 0), fully answered, fills the buffer's start with the reversed data, leaves the rest, and returns 3 |
| ReadProofs.CollectShortAnswer | ch341a.c:249-257 | the wait loop consumes the packets that came back, then a failed transfer ends the window with their data |
| ReadProofs.ShortWindowRead | ch341a.c:233-261 | as written, a one-window read with (len + 4) % 31 == 0 gets back only len + 4 - 31 SPI bytes; when the missing packet fails, it still returns 3, with the last 31 requested bytes never stored and nothing stored for len 27 |
| ReadProofs.ShortWindowCollect | ch341a.c:249-257 | the wait loop of such a window takes the packets of the short answer, then ends with -1 and their data at the failed transfer |
| ReadProofs.ShortWindowPackets | ch341a.c:233-234 | when len + 4 fills whole packets, the window expects exactly (len + 4) / 31 of them |
| ReadProofs.TwoWindowsAsWritten | ch341a.c:239-260 | as written both windows store from the buffer's start, and the first deassert's failure is forgotten, when the second window's frame is sent in full |
| ReadProofs.CursorRestart | ch341a.c:239-240 | as written the second window, its frame sent in full, overwrites the first at the buffer's start and the buffer's tail is never written |
| ReadProofs.OverlayTwice | ch341a.c:239-240 | two runs from the buffer's start: the second shadows the first where they overlap |
| ReadProofs.LostInboundError | ch341a.c:250-260 | a failed inbound transfer returns 3 as written and -1 corrected |
| ReadProofs.LostInboundErrorExample | ch341a.c:250-260 | a one-byte read whose only transfer fails returns 3 as written and -1 corrected |
| ReadProofs.DeassertFailureStops | ch341a.c:260-261 | corrected, a failed deassert ends the read with -1 and reads no further |
| ReadProofs.EmptyRead | ch341a.c:207-265 | a zero-byte read sends nothing and returns ret as it was: uninitialised as written |
| ReadProofs.AnswersPlanTail | ch341a.c:227-237 | the first answer answers the first window and the rest answer the rest of the plan |
| ReadProofs.AnswerDataLength | ch341a.c:227-237 | the answers to a plan carry exactly the bytes asked for |
| ReadProofs.AnswersEvents | ch341a.c:246-258 | the events of the answers split at the first answer's packets |
| ReadProofs.WritesTail | ch341a.c:260 | after one accepted deassert the remaining results still cover the remaining windows |
| ReadProofs.CorrectedFirstWindow | ch341a.c:238-261 | corrected, a fully answered window stores its data at the cursor and keeps ret |
| ReadProofs.RunCorrected | ch341a.c:218-262 | corrected, a fully answered read stores all the data in order from the cursor, consumes every packet and keeps ret; its frames are Frames, window by window at add, add + 3933, ..., and it ends at the last window's address |
| ReadProofs.RunCorrectedBuf | ch341a.c:218-262 | the buffer part of RunCorrected, by induction over the windows |
| ReadProofs.CorrectedBufStep | ch341a.c:238-261 | corrected, the first window of a fully answered read stores its data at the cursor and leaves the rest of the answers for the rest of the read |
| ReadProofs.RunCorrectedRest | ch341a.c:218-262 | the cursor, events, deassert results and ret part of RunCorrected, by induction over the windows |
| ReadProofs.OverlayChain | ch341a.c:184 | OverlayAppend with every run and buffer named |
| ReadProofs.CorrectedReturn | ch341a.c:207-265 | corrected, with ret initialised to 0, a fully answered read returns 0, a zero-byte read included |
| ReadProofs.CorrectedRead | ch341a.c:196-266 | corrected, a read into a large enough buffer puts all the data, in order, at the buffer's start and changes nothing after it |
| ReadProofs.WindowAddrNext | ch341a.c:231 | each window asks for the address 3933 past the previous one, wrapping as a uint32_t |
| ReadProofs.Frames | ch341a.c:219-244 | a fully answered read of len bytes sends two frames per planned window: the window's frame for its address, then the deassert |
| ReadProofs.StepFrames | ch341a.c:219-244 | one window logs its frame and the deassert, and advances the address by 3933 exactly when more than one window's worth is left |
| ReadProofs.RunFrames | ch341a.c:218-262 | a read whose every window is answered and deasserted logs exactly Frames and ends at the last window's address, as written and corrected |
| ReadProofs.AnsweredNoStop | ch341a.c:246-261 | a read whose every window is answered and deasserted never stops early |
| ReadProofs.RunFramesOut | ch341a.c:218-262 | the frames part of RunFrames, by induction over the windows |
| ReadProofs.RunFramesAddr | ch341a.c:218-262 | the address part of RunFrames, by induction over the windows |
| ReadProofs.StepFramesCons | ch341a.c:218-244 | one window's frames followed by the rest of the read's frames are the read's frames |
| ReadProofs.StepLastAddr | ch341a.c:227-231 | the last window's address is the same seen from the state after the first window |
| ReadProofs.LastAddrStep | ch341a.c:227-231 | a read has one window more than the read past its first window, and the same last address |
| ReadProofs.FramesFirstWindow | ch341a.c:238-261 | the first window of a fully answered read consumes its answer and one deassert result and logs its two frames |
| ReadProofs.FramesCons | ch341a.c:218-244 | the frames of a read are its first window's two frames followed by the frames of the rest |
| ReadProofs.AnswerDataAt | ch341a.c:227-231 | the data of window k of a read is stored 3933 * k bytes past the start of the read's data |

## Left out

- `ch341Configure`, `ch341Release` and the body of `usbTransfer` are libusb set-up and foreign calls; a transfer is only its scripted outcome.
- The asynchronous libusb machinery is replaced by the scripted event sequence: allocation, fill, submission, `libusb_handle_events_timeout` and its 100 µs `timeval`. Timing, time-outs and real callback concurrency are not modelled.
- `cbBulkOut` and every `fprintf`/`printf` only log; they are left out, as is the hex dump in main.c.
- The status of the asynchronous bulk-out transfer is not modelled: `cbBulkOut` only logs it and the read never looks at it.
- The bytes 4..31 of the `ch341SpiStream` frame are never initialised by the driver; `Stream.IsStreamFrame` leaves them unconstrained.
- Reassembly.Overlay: a byte whose position lies past the end of the caller's buffer is dropped, where the driver stores it past the end of `buf` (ch341a.c:184). The driver leaves it to the caller to supply a large enough buffer (ch341a.c:195), and the model accepts a buffer of any length.
- Reassembly.InboundTransfer.Append: likewise skips stores past the end of its destination instead of writing out of bounds.
- ReadEngine.SpiRead: has no precondition on the length of `buf`; the out-of-bounds stores of a too-small buffer are dropped as in `Reassembly.Overlay`.
- Transport.Event: a completed packet may carry any number of bytes. The driver's inbound transfer has a 32-byte buffer (ch341a.c:239-240), so libusb never completes it with more; the model does not bound `Completed` data to 32 bytes.
- Transport.Device.BulkRead: a reply longer than the requested length is cut to that length, where libusb would report an overflow and the transfer would fail.
- Stream.SpiStream: the model refuses payloads longer than 4063 bytes, the corrected guard. The guard as written also admits 4064, whose frame overruns the stack buffer; that case is `Stream.SourceGuardOverrun`.
- ReadLayout.PrefillOut: the marker loop is bounded by the buffer. The out-of-bounds store at offset 4096 as written is `ReadLayout.MarkerLoopOverrun`.
- ReadEngine.SpiRead: the `if (ret < 0) break;` after the deassert can never fire, because `ret` is unsigned, so the loop omits it and stops only once nothing is left to read.
- ReadEngine.SpiRead: the uninitialised `ret` is a parameter, `stale`, because its value is whatever the stack held.
- The corrected variant is a specification (`Step` and `Run` with `Corrected`) with its properties proved; no second driver method implements it.
- Reads whose windows are answered only in part are covered by the wait-loop model (`Collect`) and by `SpiRead`'s equality with `Run`. The read-level lemmas in `ReadProofs` state only fully answered windows and single failures.

## Findings

| source | as written | input that shows it | evidently intended | confidence | as-written member | corrected member |
|---|---|---|---|---|---|---|
| ch341a.c:212-213 | the marker loop runs i from 1 to 128 and stores at 32 * i | i = 128 stores at offset 4096 of the 4096-byte `out` | markers at 32, 64, ..., 4064 only | high, not executed | ReadLayout.MarkerLoopOverrun | ReadLayout.PrefillOut |
| ch341a.c:223-226 | the address bytes are bits 31..8 of `add` | add = 0x100 reaches the flash as address 0x1 | bits 23..0, the 24-bit flash address | high, not executed | ReadLayout.AddressAsWritten | ReadLayout.AddressCorrected |
| ch341a.c:239-240 | every window re-arms the inbound transfer with `buf` itself, so the cursor restarts at buf[0] | a read of 3934 bytes: the second window's byte lands at buf[0] over the first window's data and buf[3933] is never written | the cursor carries on across windows | high, not executed | ReadProofs.CursorRestart | ReadProofs.CorrectedRead |
| ch341a.c:250-261 | `ret = -1` after a failed inbound transfer is overwritten by the deassert's result, and `ret < 0` is never true of an unsigned `ret` | a one-byte read whose only inbound transfer fails returns 3 | return -1 and stop at the first failure | high, not executed | ReadProofs.LostInboundErrorExample | ReadProofs.DeassertFailureStops |
| ch341a.c:207 | `ret` is uninitialised and a read of zero bytes returns it | len = 0 returns whatever the stack held | initialise `ret` to 0, so that a read that fails nowhere returns 0 | high, not executed | ReadProofs.EmptyRead | ReadProofs.CorrectedReturn |
| ch341a.c:235 | pkg_len adds (len + 4) % 31 + 1 to the packets, which is 1 when the last packet is full | len = 27: the layout needs 64 bytes and 33 are sent, no byte is stored and the read returns 3; len = 58: 27 of 58 bytes are stored and the read returns 3 | 32 * pkg_count plus the SPI bytes of the last packet, i.e. FrameLen | high, not executed | ReadProofs.ShortWindowRead | ReadPlan.FrameLen |
| ch341a.c:128 | the guard refuses only len > 4096 - 32 | len = 4064 stores the last payload byte at outBuf[4096] | refuse len > 4096 - 33 | high, not executed | Stream.SourceGuardOverrun | Stream.SpiStream |
