# Verified models of the dbox2 drivers

This project models the protocols and algorithms inside the Linux drivers of the dbox2 receiver and
proves what they promise, for every input, every interleaving and every run. `dafny verify
dfyconfig.toml` checks everything.

Drivers that change state step by step are classes whose methods follow the source branch by branch.
Each method is proved against a specification: a step machine of the chip, a wire protocol, a text
sheet, a key machine, a FIFO. Lemmas then prove what matters about the specification itself. Where
the code does not meet its promise, a lemma says exactly when it does.

| module | models | main results |
|---|---|---|
| `IdeCpld` | IDE words through a four-word FIFO that the CPLD fills or drains by itself | `insw` takes exactly the stored words from the drive, `outsw` delivers exactly the source words, whatever the chip does in between |
| `GtAccel` | copy and CRC engines, long requests cut into commands | the commands together copy or sum exactly the requested range |
| `GtGraphics` | row loop for rectangles in strided memory | a rectangle move is faithful for all pictures if and only if the destination does not start above the source or the rectangles are disjoint |
| `SpiPins`, `SpiBus` | bit-banged SPI, three wirings, bit loop and bursts | bursts and bit loop produce the same wire history and the same bytes |
| `MmcProtocol`, `MmcWire`, `MmcBlocks` | block reads and writes, both option paths | for every card, both paths equal one wire protocol; read back from the clock edges it is the command with its address, the data and the polls, and the replies decide the return code |
| `MmcHardware` | borrowing the port registers | any session gives all registers back, if and only if no attempt that takes wiring 4 meets PB18 as an output |
| `MmcGeometry` | card size and range check | a request that passes the range check moves the right blocks if and only if the sum of the check did not wrap and the block length is 512, or it asks for sector 0 alone |
| `LcdConsole` | text console over display RAM | after any byte stream the display shows the window of an unbounded sheet of lines |
| `RcKeys` | key machine of both remotes with a shared timer | a run shows a well-formed trace, with a press open exactly while the timer is pending, if and only if no code takes the timer of the other remote |
| `Dvb2eth` | UDP packetizer and its caller | over any list of windows all packets are one train: consecutive slots and identifications, valid checksums, payloads that are the stream |
| `EventRings` | filtered event handles, newest dropped | any run of the device is a run of a map of views, in which every handle is an independent FIFO of 32 |
| `VideoEvents` | video events, oldest dropped | ring contents and overflow flag under a concurrent producer |
| `Rings`, `Integers` | ring buffers and unsigned integers of the modules above and below | a ring holds a queue, pushed at one end and popped at the other |
| `AvPlayState` | two stacked play-state machines | the relation between both layers on every run, and that it is the strongest one |
| `AvMicrocode` | sectioned microcode loader | result 0 exactly when every word read back equal |
| `Tuner` | synthesizer divider arithmetic in 32 bits | the exact frequency bound below which the chip is tuned to the nearest step |

## What is assumed of the hardware

- **CPLD.** A FIFO of four words; one level bit per word; a 32-bit read takes the two oldest words, the
  older one in the high half; with enable and repeat it keeps moving words, with enable alone it moves
  one. `pace` gives the number of chip steps before every bus access and is arbitrary; the unbounded
  polls assume that the chip runs again eventually (`Fair`). A data port leaves the bits 0x20, 0x40
  and 0x80 of the control word clear. On entry the chip is inactive and its FIFO empty.
- **Copy and CRC engines.** A command moves or feeds LEN + 1 units and leaves the addresses behind the
  last byte; bytes are moved forwards, one after the other. The CRC step is an arbitrary function of
  register and byte.
- **SPI.** The card samples DI when the clock rises and drives DO as an arbitrary function of what it has
  seen; writing the DO line has no effect. A register is the set of its lines that read one.
- **Display.** Nine pages of 132 columns, the column advances on every access, and a read returns what
  the access before it fetched. The font is an arbitrary function.
- **Decoder memory.** What a read returns is an arbitrary function of the history of writes and the
  address; the lemmas about faithful memory say so.
- **Kernel.** Regions under a lock are one step. The key timer can fire between the handlers and inside
  them where they test and delete it. The input core keeps the set of pressed keys.

## Where the code does less than it says

- `dboxide_insw` with a count above four that is not a multiple of four stores and takes up to three
  words more (`IdeCpld.Ide.Insw`). `dboxide_outsw` ends its push loop exactly for multiples of four, and
  its branch for a rest of two words is never reached (`IdeCpld.Ide.PushLoop`, `IdeCpld.Ide.Outsw`).
- The final wait of `dboxide_outsw` reports a problem exactly when 999 polls leave the FIFO non-empty, so
  also when the last poll sees it empty (`IdeCpld.Ide.WaitForFifoEmpty`, `IdeCpld.LateChip`).
- `avia_gt_gv_copyarea` damages overlapping moves to higher addresses (`GtGraphics.OverlapDamages`).
- A GTX line of 640 or 720 pixels with 32 bits does not fit the stride field (`GtGraphics.LineFitsStride`).
- A GTX CRC whose command loop starts empty at an even address sums one halfword (`GtAccel.SpanExact`). A
  ring range whose first part sums to all ones is right on the GTX only if preloading a word equals
  feeding it to a register of zero (`GtAccel.CrcChaining`).
- Wiring 4 clears the direction bit of PB18 but does not save it (`MmcHardware.Hardware.Session`).
- The range check of the card driver adds in 32 bits: sector 0xFFFFFFFF alone passes and is moved behind
  the card (`MmcGeometry.WrappedRequest`). With another block length than 512 every request that
  passes goes to wrong addresses, but for sector 0 alone (`MmcGeometry.RequestExact`), and from 4 GB on the size wraps
  (`MmcGeometry.SectorsExact`).
- With both remotes in use, a press can open inside an open press, or stay open without a timer
  (`RcKeys.OldClashShows`, `RcKeys.NewClashShows`).
- Video events dropped between the test and the reset of the overflow flag raise no report of their own;
  the return that is already due stands for them (`VideoEvents.Events.ResetHidesDrops`). If a writer
  opens the device between the test and the take of a reader, the take returns a slot without a pending
  event exactly if no event arrives between the open and the take (`VideoEvents.Events.OpenBeforeTake`).
- The guard of `sp5668_set_tv_freq` says 3815467 kHz, but from 3815218 kHz on a sum wraps and the divider
  is zero (`Tuner.TunedExactly`). From 3815460 kHz on the programmed ratio is eight, whose bit is that of
  the charge pump (`Tuner.RatioEight`).

## Model

| member | source | states |
|---|---|---|
| IdeCpld.ReadingSteps | ide/main.c:225-226 | however long the chip runs with auto repeat, the FIFO stays a window of consecutive drive words of at most four |
| IdeCpld.WritingSteps | ide/main.c:362-366 | while the chip drains, delivered words and FIFO together stay the same sequence |
| IdeCpld.SingleStep | ide/main.c:181-182 | a single-shot access fetches exactly one word, however long the chip runs |
| IdeCpld.ControlWords | ide/main.c:181-402 | the control words of the driver select the intended chip modes |
| IdeCpld.Ide.Inw | ide/main.c:174-194 | one call returns the next drive word and takes exactly that one |
| IdeCpld.Ide.ShortInsw | ide/main.c:203-213 | counts below four are stored word by word, nothing more is taken |
| IdeCpld.Ide.Insw | ide/main.c:199-289 | stores the next words of the drive in order and the drive loses exactly the stored ones, under every interleaving; the number is the count exactly for counts below four and multiples of four |
| IdeCpld.Ide.ReadBulk | ide/main.c:239-268 | both counting loops leave exactly four words to be read after the stop |
| IdeCpld.Ide.StopAndTakeFour | ide/main.c:275-289 | repeat is switched off behind a full FIFO and the last four words are then read, none is lost |
| IdeCpld.Ide.WaitFull | ide/main.c:273-275 | a fair chip ends the poll with four words, and the window is kept |
| IdeCpld.Ide.WaitForFifoEmpty | ide/main.c:128-140 | at most 1000 polls; a problem is reported exactly when the chip steps before the first 999 polls do not drain the FIFO, and the FIFO ends empty exactly when those before 1000 polls do |
| IdeCpld.LateChip | ide/main.c:128-140 | a chip that drains everything just before the last poll makes the wait report a problem for an empty FIFO |
| IdeCpld.Ide.PushLoop | ide/main.c:374-387 | for every count, the loop ends within a number of rounds exactly if the count is a multiple of four and not too large, after pushing the source words in order; otherwise it is still pushing |
| IdeCpld.Ide.Outsw | ide/main.c:351-402 | for every count: if the loop ends, delivered words and FIFO are the old ones plus the source words in order and the FIFO is empty when the wait succeeded; nothing is ever pushed without room |
| IdeCpld.OutswCounterNeverZero | ide/main.c:377-387 | the 32-bit loop counter keeps its remainder modulo four, so it never becomes zero for a count that is no multiple of four |
| GtAccel.CopySplit | dvb/drivers/media/dvb/avia/avia_gt_accel.c:51-70 | a forward copy may be cut anywhere |
| GtAccel.Gt.CopyCommand | dvb/drivers/media/dvb/avia/avia_gt_accel.c:57-66 | one command moves LEN + 1 bytes, with the length in its field |
| GtAccel.Gt.Copy | dvb/drivers/media/dvb/avia/avia_gt_accel.c:37-71 | the commands of 64, 16 or 14 bytes together are one forward copy of the whole range, each length in its field |
| GtAccel.FeedConcat | dvb/drivers/media/dvb/avia/avia_gt_accel.c:111-139 | feeding two ranges is feeding their concatenation |
| GtAccel.CrcChaining | dvb/drivers/media/dvb/avia/avia_gt_accel.c:73-147 | the second of two calls, seeded with the first, returns the sum of both ranges; for an all-ones first sum on the GTX exactly if preloading a word equals feeding it to zero |
| GtAccel.SpanExact | dvb/drivers/media/dvb/avia/avia_gt_accel.c:94-109 | a call sums exactly the requested bytes unless the GTX loop starts empty at an even address |
| GtAccel.CrccDecoded | dvb/drivers/media/dvb/avia/avia_gt_gtx.h:829-839 | the command word decodes to the intended first byte and end, with LEN in three bits |
| GtAccel.CrcAdvance | dvb/drivers/media/dvb/avia/avia_gt_accel.c:105-136 | each GTX command goes on where the last one ended, for every parity of start and end |
| GtAccel.Gt.EnxCrcLoop | dvb/drivers/media/dvb/avia/avia_gt_accel.c:111-139 | the eNX commands feed the range once and in order |
| GtAccel.Gt.GtxCrcLoop | dvb/drivers/media/dvb/avia/avia_gt_accel.c:102-139 | the GTX commands feed the range once and in order, for every parity |
| GtAccel.Gt.Crc32 | dvb/drivers/media/dvb/avia/avia_gt_accel.c:73-147 | the result is the sum over the range with the seed handling of both chips |
| GtAccel.CrcIs | dvb/drivers/media/dvb/avia/avia_gt_accel.c:73-147 | the returned sum in numbers: complement of the register after the bytes of the range, from the complement of the seed, or from the first four bytes for an all-ones seed on the GTX |
| GtAccel.Gt.QueueCrc32 | dvb/drivers/media/dvb/avia/avia_gt_napi.c:204 | the sum this call asks for (`avia_gt_dmx_queue_crc32`, lines 299 to 325 of avia_gt_dmx.c in the same directory): a range of a ring buffer in one or two calls, 0 for the refused case, and what an all-ones first sum gives |
| GtGraphics.RowStartProduct | dvb/drivers/media/dvb/avia/avia_gt_gv.c:52-53 | row starts counted up by the stride are the products of the source |
| GtGraphics.RowsMoved | dvb/drivers/media/dvb/avia/avia_gt_gv.c:52-53 | the row loop moves the rectangle byte for byte and changes nothing else when the destination is not above the source or disjoint |
| GtGraphics.OverlapDamages | dvb/drivers/media/dvb/avia/avia_gt_gv.c:52-53 | for every other placement there is a picture that is not moved faithfully |
| GtGraphics.CopyRowsExact | dvb/drivers/media/dvb/avia/avia_gt_gv.c:46-54 | faithful for all pictures if and only if the destination does not start above the source or the rectangles are disjoint |
| GtGraphics.LineFitsStride | dvb/drivers/media/dvb/avia/avia_gt_gv.c:398-404 | a line fits the programmed stride for all accepted widths except 32-bit pixels from 640 columns on the GTX |
| GtGraphics.Gv.SetInputMode | dvb/drivers/media/dvb/avia/avia_gt_gv.c:255-265 | for every accepted width the stride stays right for the mode, and a whole line fits between two line starts exactly except for 32-bit pixels from 640 columns on the GTX |
| GtGraphics.Gv.SetInputSize | dvb/drivers/media/dvb/avia/avia_gt_gv.c:267-344 | accepts exactly the known widths and heights, and then a whole line fits under the same condition; a refusal changes neither width nor stride |
| GtGraphics.StrideIsLine | dvb/drivers/media/dvb/avia/avia_gt_gv.c:398-404 | the stride of an accepted width is the length of its line in bytes, 2048 less where the GTX field overflows |
| GtGraphics.MovedPixels | dvb/drivers/media/dvb/avia/avia_gt_gv.c:46-86 | rows of bytes are rows of pixels: every byte of every pixel of the area is at its new coordinates and nothing else has changed |
| GtGraphics.Gv.CopyArea | dvb/drivers/media/dvb/avia/avia_gt_gv.c:46-86 | for a line that fits the stride and areas that do not overlap upwards, byte k of pixel (dstX + x, dstY + r) ends as byte k of pixel (srcX + x, srcY + r) for 1, 2 or 4 bytes a pixel, and all other memory is unchanged; otherwise the result is that of the row loop |
| SpiPins.AllWired | mmc/mmccombo.c:332-400 | the lines of each wiring are distinct |
| SpiPins.ShiftedIsAnswer | mmc/mmccombo.c:625-649 | shifting in eight bits gives the same byte as setting eight mask bits |
| SpiPins.SentAllConcat | mmc/mmccombo.c:406-600 | runs of bytes on the wire concatenate |
| SpiBus.SpiHost.Io | mmc/mmccombo.c:332-400 | one byte of the bit loop: eight edges with the bits of the byte, the answer of the card, other lines kept, clock low |
| SpiBus.SpiHost.IoWrite | mmc/mmccombo.c:332-400 | n calls of the bit loop send the bytes one after another |
| SpiBus.SpiHost.IoRead | mmc/mmccombo.c:332-400 | n calls of the bit loop with 0xff read the replies of the card |
| SpiBus.SpiHost.Write14 | mmc/mmccombo.c:406-552 | the burst of wirings 1 and 4 gives the wire history of the bit loop, other lines kept, clock low |
| SpiBus.SpiHost.Write2 | mmc/mmccombo.c:554-600 | the same for wiring 2 |
| SpiBus.SpiHost.ReadMultiple | mmc/mmccombo.c:605-740 | the burst read gives the wire history and the bytes of the bit loop for all three wirings |
| SpiBus.SpiHost.SetCs | mmc/mmccombo.c:312-330 | chip select changes alone |
| SpiBus.EightEdges | mmc/mmccombo.c:440-545 | eight unrolled bits are one byte on the wire |
| MmcProtocol.WriteBracketed | mmc/mmccombo.c:746-844 | on every exit the card was selected once and is deselected, with eight clocks behind |
| MmcProtocol.ReadBracketed | mmc/mmccombo.c:846-943 | the same for reads |
| MmcWire.CommandBytes | mmc/mmccombo.c:759-762 | the four bytes behind the command are the address, the highest first |
| MmcWire.RunCarries | mmc/mmccombo.c:332-740 | bytes sent and replies read stand in the wire history as eight edges each, the highest bit first |
| MmcWire.WriteOnWire | mmc/mmccombo.c:746-844 | a write puts four bytes of ones, 0x58, the address, ones, polls, 0xFE, the 512 data bytes, two bytes of ones and polls on the wire; which replies give 0, 1 and 3 |
| MmcWire.ReadOnWire | mmc/mmccombo.c:846-943 | a read puts four bytes of ones, 0x51, the address and ones on the wire; which replies give 0, 1 and 2, and which are the 512 bytes of data |
| MmcBlocks.Mmc.WriteBlockIo | mmc/mmccombo.c:746-844 | the failsafe write is the wire protocol, with its return codes |
| MmcBlocks.Mmc.WriteBlockOpt | mmc/mmccombo.c:746-844 | the optimised write is the same protocol, although one buffer serves command, token and polls |
| MmcBlocks.Mmc.WriteBlock | mmc/mmccombo.c:746-844 | for every card, the option changes neither wire nor return code; the wire, read back from its edges, carries command, address and data as above; only clock, data and chip select lines change |
| MmcBlocks.Mmc.ReadBlockIo | mmc/mmccombo.c:846-943 | the failsafe read is the wire protocol and delivers its 512 bytes |
| MmcBlocks.Mmc.ReadBlockOpt | mmc/mmccombo.c:846-943 | the optimised read is the same protocol with the same bytes |
| MmcBlocks.Mmc.ReadBlock | mmc/mmccombo.c:846-943 | for every card, the option changes neither wire, return code nor data; the wire carries command and address, and the data are the replies; a failed read leaves the data alone |
| MmcBlocks.Mmc.PollOpt | mmc/mmccombo.c:746-844 | polling through the buffer is the bounded poll of the protocol |
| MmcBlocks.Mmc.FillCommand | mmc/mmccombo.c:746-943 | shifting the address builds the command bytes, most significant first |
| MmcHardware.CarefulReturn | mmc/mmccombo.c:176-181 | clearing and setting the saved lines restores a data register whatever was driven |
| MmcHardware.TransferLines | mmc/mmccombo.c:188-289 | the lines that transfers drive are the ones that were borrowed |
| MmcHardware.TransferLevels | mmc/mmccombo.c:312-740 | what the transfer routines keep of the data registers is all that a transfer on borrowed lines must keep |
| MmcHardware.Hardware.WriteBlock | mmc/mmccombo.c:746-844 | a block write on the borrowed registers is the protocol and leaves the registers returnable |
| MmcHardware.Hardware.ReadBlock | mmc/mmccombo.c:846-943 | the same for a block read |
| MmcHardware.Hardware.Init | mmc/mmccombo.c:188-310 | refused exactly for a conflict without force, otherwise the lines are taken and the bus is idle |
| MmcHardware.Hardware.Cleanup | mmc/mmccombo.c:159-185 | all eight registers come back |
| MmcHardware.Hardware.Session | mmc/mmccombo.c:159-310 | any run of attempts, transfers and releases gives the registers back if and only if no attempt takes wiring 4, by force or because its lines are free, while PB18 is an output |
| MmcGeometry.FieldInRegister | mmc/mmccombo.c:1056-1060 | bits of the register that lie in one byte are a part of that byte |
| MmcGeometry.CSizeByBytes | mmc/mmccombo.c:1056-1057 | the bytes and shifts of the source give bits 73 to 62 |
| MmcGeometry.CSizeMultByBytes | mmc/mmccombo.c:1058-1059 | bits 49 to 47 |
| MmcGeometry.ReadBlLenByBytes | mmc/mmccombo.c:1060 | bits 83 to 80 |
| MmcGeometry.Disk.CardConfig | mmc/mmccombo.c:1056-1075 | block length and sector count are those of the card; the size is the capacity exactly while the product stays below 2^32 |
| MmcGeometry.SectorsExact | mmc/mmccombo.c:1061-1126 | the sector count is the capacity exactly while that is below 2^32 and whole kilobytes, and always for 512-byte blocks |
| MmcGeometry.RequestExact | mmc/mmccombo.c:1251-1298 | a request that passes the 32-bit range check moves the right blocks of the card to the right places of the buffer if and only if its sum did not wrap and the block length is 512, or it is for sector 0 alone |
| MmcGeometry.WrappedRequest | mmc/mmccombo.c:1255 | sector 0xFFFFFFFF alone passes the check of every card with 512-byte blocks and is moved at 0xFFFFFE00 |
| MmcGeometry.OtherLength | mmc/mmccombo.c:1251 | another block length gives the wrong address for every sector number below 2^23 but zero, even with the 32-bit cut |
| MmcGeometry.Disk.Request | mmc/mmccombo.c:1249-1303 | refusals, the exact sequence of block moves with 32-bit cuts, success exactly when no block fails; a successful request has moved all its sectors, a failed one at least the failing block, and a count from 2^31 on none; and when a successful request on a configured card moved the right blocks |
| MmcGeometry.NextBlock | mmc/mmccombo.c:1272-1273 | counting the address up with cuts is the product with cuts |
| LcdConsole.PlainText | lcd/lcd-console.c:75-87 | without newlines, byte i stands in line i / 15 at column i % 15 |
| LcdConsole.NewlineIs | lcd/lcd-console.c:109-126 | byte 0x0A fills the line with spaces and starts a new one |
| LcdConsole.CharacterIs | lcd/lcd-console.c:75-87 | any other byte stands at the cursor, on a new line if the line is full |
| LcdConsole.WindowIsTail | lcd/lcd-console.c:109-137 | the display shows the last eight lines of the sheet |
| LcdConsole.NewLineWindow | lcd/lcd-console.c:109-126 | a newline above the bottom pads the line and moves the cursor; at the bottom the window moves by one line |
| LcdConsole.ScrolledWindow | lcd/lcd-console.c:114-122 | scrolling and blanking the last row is the next window |
| LcdConsole.WrappedWindow | lcd/lcd-console.c:75-78 | a full line wraps before the next character, and the picture stays |
| LcdConsole.CharWindow | lcd/lcd-console.c:80-87 | a character appears in one visible cell, below row 8 and column 15, after lazy scrolling |
| LcdConsole.DotOf | lcd/lcd-ks0713.c:358-362 | setting or clearing a bit leaves the others |
| LcdConsole.Lcd.SetPixel | lcd/lcd-ks0713.c:326-371 | refused exactly outside the display, otherwise one pixel is set, cleared or inverted and no other changes |
| LcdConsole.Lcd.ReadDram | lcd/lcd-ks0713.c:375-389 | the dummy read makes every byte arrive at its place |
| LcdConsole.Lcd.WriteDram | lcd/lcd-ks0713.c:393-405 | the visible area takes the picture, the rest stays |
| LcdConsole.Console.PutChar | lcd/lcd-console.c:92-105 | eight columns take the glyph, nothing else changes |
| LcdConsole.Console.BlankLine | lcd/lcd-console.c:111-113 | blanks up to one column too far only change visible cells of the line |
| LcdConsole.Console.ScrollDown | lcd/lcd-console.c:130-137 | every visible line moves up and the last one is empty |
| LcdConsole.Console.NewLine | lcd/lcd-console.c:109-126 | display and cursor follow the sheet |
| LcdConsole.Console.PutByte | lcd/lcd-console.c:62-87 | one byte of the stream keeps display, cursor and sheet together |
| LcdConsole.Console.PutData | lcd/lcd-console.c:58-88 | after any byte stream the display shows the window of the sheet |
| LcdConsole.Console.constructor | lcd/lcd-console.c:45-54 | the cleared display shows the empty sheet |
| RcKeys.RowNewUnique | fp/dbox2_fp_rc.c:43-80 | every five-bit code of the new remote has exactly one row |
| RcKeys.OldStepGood | fp/dbox2_fp_rc.c:106-147 | a code of the old remote keeps the invariant if and only if it does not take the timer of the new one |
| RcKeys.NewStepGood | fp/dbox2_fp_rc.c:149-207 | the same for a code of the new remote |
| RcKeys.FireGood | fp/dbox2_fp_rc.c:89-100 | the expiry closes the open press |
| RcKeys.NewEmits | fp/dbox2_fp_rc.c:149-207 | what a code of the new remote adds to the trace in every state: press, repeat for the same key and toggle bits, or release and press, of the key whose row has the five low bits of the code |
| RcKeys.OldEmits | fp/dbox2_fp_rc.c:106-147 | the same for a key of the old remote, by the eight low bits of the code |
| RcKeys.BreakEmits | fp/dbox2_fp_rc.c:120-129 | the break code releases the held key once, whether or not the timer got there first |
| RcKeys.UnknownEmits | fp/dbox2_fp_rc.c:120-146 | a code without a row only releases another held key |
| RcKeys.FireEmits | fp/dbox2_fp_rc.c:89-100 | the expiry releases exactly the held key |
| RcKeys.RunGood | fp/dbox2_fp_rc.c:89-207 | the invariant holds after all prefixes of a run if and only if no code clashes |
| RcKeys.VisibleStep | fp/dbox2_fp_rc.c:89-207 | a step keeps the trace well formed, with a press open exactly while the timer is pending, if and only if its code does not clash |
| RcKeys.RunVisible | fp/dbox2_fp_rc.c:89-207 | all prefixes of a run leave a well-formed trace with a press open exactly while the timer is pending, if and only if no code takes the timer of the other remote |
| RcKeys.OldClashShows | fp/dbox2_fp_rc.c:106-147 | a clashing break code leaves a press open without a timer, any other clashing old key breaks the trace |
| RcKeys.NewClashShows | fp/dbox2_fp_rc.c:149-207 | a clashing code of the new remote breaks the trace |
| RcKeys.OneRemote | fp/dbox2_fp_rc.c:89-207 | with one remote type in use the invariant holds on every run, including expiries inside the handlers |
| RcKeys.OneRemoteVisible | fp/dbox2_fp_rc.c:89-207 | with one remote type in use every run shows a well-formed trace with a press open exactly while the timer is pending |
| RcKeys.MixedRemotesBreak | fp/dbox2_fp_rc.c:106-207 | a key of one remote while the other holds one is a press inside a press |
| RcKeys.MixedRunBreaks | fp/dbox2_fp_rc.c:106-207 | a new code followed by any old key code breaks the trace |
| RcKeys.Rc.Keyup | fp/dbox2_fp_rc.c:89-100 | the timer function releases the key that is still down |
| RcKeys.Rc.OldQueueHandler | fp/dbox2_fp_rc.c:106-147 | the handler with its table scan is the step of the key machine |
| RcKeys.Rc.NewQueueHandler | fp/dbox2_fp_rc.c:149-207 | the same for the new remote, with its filter |
| Dvb2eth.FoldMod | dvb2eth/dvb2eth.c:147 | folding carries keeps the sum modulo 65535 |
| Dvb2eth.CsumMakesValid | dvb2eth/dvb2eth.c:145-147 | any header with the computed checksum sums to all ones |
| Dvb2eth.ChecksumIs | dvb2eth/dvb2eth.c:147 | a header sums to all ones if and only if the sum of its ten halfwords, written out in bytes, is a positive multiple of 65535 |
| Dvb2eth.Packetizer.CreateHeader | dvb2eth/dvb2eth.c:143-147 | the slot takes the next identification and a valid checksum, the rest stays as prepared |
| Dvb2eth.Packetizer.SendOne | dvb2eth/dvb2eth.c:149-180 | one packet takes the first 1316 bytes of the window and the segments keep the rest |
| Dvb2eth.Packetizer.Send | dvb2eth/dvb2eth.c:126-184 | the return value is the whole packets of the window, sent in order with consecutive slots and identifications and valid headers |
| Dvb2eth.Packetizer.constructor | dvb2eth/dvb2eth.c:232-236 | all slots hold the skeleton |
| Dvb2eth.TrainJoins | dvb2eth/dvb2eth.c:141-181 | a train of packets behind a train is one train, and the payloads concatenate |
| Dvb2eth.SlotIs | dvb2eth/dvb2eth.c:180 | the i-th slot of a train is i places further modulo 32 |
| Dvb2eth.IdIs | dvb2eth/dvb2eth.c:145 | the i-th identification of a train is i further modulo 65536 |
| Dvb2eth.PacketIs | dvb2eth/dvb2eth.c:141-181 | slot, identification bytes, checksum condition and payload of the i-th packet of a train, in numbers |
| Dvb2eth.CutoffHarmless | dvb/drivers/media/dvb/avia/avia_gt_napi.c:340-353 | cutting an incomplete transport packet does not change the number of payloads |
| Dvb2eth.Packetizer.Callback | dvb/drivers/media/dvb/avia/avia_gt_napi.c:331-366 | the caller cuts the window, sends it, and removes exactly what was sent from the front |
| Dvb2eth.Packetizer.SendStream | dvb/drivers/media/dvb/avia/avia_gt_napi.c:331-366 | over any list of arrivals and ring positions, all packets together are one train, the payloads and what is pending are the whole stream, and their number is the whole payloads in it |
| EventRings.BatchAccepted | event/event.c:68-84 | a batch adds exactly the first matching events for which there is room |
| EventRings.NoLoss | event/event.c:68-84 | nothing matching is lost if and only if it fits |
| EventRings.OneBitFilter | event/event.c:74 | a filter of one bit passes the events that have this bit |
| EventRings.JoinedFilter | event/event.c:74 | a filter of several bits passes what one of them passes |
| EventRings.NewFilter | event/event.c:126 | the filter of a new handle passes every event but the empty one |
| EventRings.Independent | event/event.c:60-211 | what an open handle sees depends on the writes and its own calls only |
| EventRings.RunFifo | event/event.c:60-211 | on every run each handle delivered in order what it accepted, holds at most 32, and only five slots exist |
| EventRings.Session | event/event.c:60-211 | any run on a new device is the run of the map of views, so both results above hold of the device |
| EventRings.Handle.Offer | event/event.c:72-80 | the ring accepts exactly a matching event for which there is room, at its end |
| EventRings.Handle.Take | event/event.c:150-211 | the oldest event leaves the ring; a failed copy leaves it |
| EventRings.Device.Read | event/event.c:150-211 | a read takes the oldest event of its own slot and leaves the views of all others |
| EventRings.Device.SetFilter | event/event.c:91-106 | a filter change leaves queues and the views of all other slots |
| EventRings.Device.Perform | event/event.c:60-211 | every operation on the device is the step of the map of views |
| EventRings.Device.WriteMessage | event/event.c:60-89 | every open handle takes the batch by its own filter and room |
| EventRings.Device.Open | event/event.c:108-130 | refused exactly when the counter is five, otherwise the first free slot gets a fresh handle that accepts everything |
| EventRings.Device.Release | event/event.c:132-148 | the slot of the handle is freed, the counter goes down, and the other views stay |
| VideoEvents.Events.AddEvent | dvb/drivers/media/dvb/avia/avia_av_napi.c:150-189 | the event holds the reported size and ratio; the ring holds the newest seven undelivered events; overflow is set exactly when one was dropped |
| VideoEvents.Events.GetEvent | dvb/drivers/media/dvb/avia/avia_av_napi.c:191-221 | exact conditions of all four results with a producer running between the overflow test and its reset, between that test and the test for an empty ring, while the reader sleeps and before the take; which events remain after each, and exactly when events were dropped between test and reset |
| VideoEvents.Events.ResetHidesDrops | dvb/drivers/media/dvb/avia/avia_av_napi.c:195-198 | on a full ring every event that arrives between test and reset drops another one, and the flag ends clear |
| VideoEvents.Events.Open | dvb/drivers/media/dvb/avia/avia_av_napi.c:606-620 | a writer discards the pending events and keeps an overflow |
| VideoEvents.Events.OpenBeforeTake | dvb/drivers/media/dvb/avia/avia_av_napi.c:191-221 | a writer that opens the device (lines 606 to 620) between the test and the take of a reader: the take is right and the ring sound exactly if an event arrives in between, otherwise a stale slot is returned and the indices stand for seven events |
| Rings.Steps | dvb/drivers/media/dvb/avia/avia_av_napi.c:155-160 | a ring is full or empty exactly when its positions say so, and a step of either keeps them apart by the queue length |
| Rings.ContentsPush | event/event.c:75-79 | a store behind the last element appends to the queue |
| Rings.ContentsPop | event/event.c:174-182 | a step of the read position drops the oldest element |
| AvPlayState.StepConsistent | dvb/drivers/media/dvb/avia/avia_av_napi.c:80-488 | every operation keeps the relation of both layers |
| AvPlayState.AudioOps | dvb/drivers/media/dvb/avia/avia_av_napi.c:436-488 | the whole state after every audio ioctl |
| AvPlayState.VideoOps | dvb/drivers/media/dvb/avia/avia_av_napi.c:223-270 | the whole state after every video ioctl |
| AvPlayState.FeedOps | dvb/drivers/media/dvb/avia/avia_av_napi.c:80-148 | a feed start starts its decoder exactly when the application has it playing, a feed stop stops it, and when the stream type follows |
| AvPlayState.RunConsistent | dvb/drivers/media/dvb/avia/avia_av_napi.c:80-488 | on every run a playing core is playing for the application and a stopped application state means a stopped core |
| AvPlayState.SwitchesAreSafe | dvb/drivers/media/dvb/avia/avia_av_napi.c:223-488 | an accepted source switch finds its decoder stopped; the stream type changes only under stopped decoders or at a reset |
| AvPlayState.VideoPairsReached | dvb/drivers/media/dvb/avia/avia_av_napi.c:223-270 | exactly the related pairs of video states are reached by runs |
| AvPlayState.AudioPairsReached | dvb/drivers/media/dvb/avia/avia_av_napi.c:436-488 | the same for audio |
| AvPlayState.Decoder.PlayStateSetAudio | dvb/drivers/media/dvb/avia/avia_av_core.c:1214-1274 | the switch of the core is the step of the machine |
| AvPlayState.Decoder.PlayStateSetVideo | dvb/drivers/media/dvb/avia/avia_av_core.c:1276-1328 | the same for video, where playing again is refused |
| AvPlayState.Decoder.StreamTypeSet | dvb/drivers/media/dvb/avia/avia_av_core.c:1330-1337 | refused unless both decoders are stopped |
| AvPlayState.Decoder.DecoderStart | dvb/drivers/media/dvb/avia/avia_av_napi.c:80-122 | feed start as a step of the machine |
| AvPlayState.Decoder.DecoderStop | dvb/drivers/media/dvb/avia/avia_av_napi.c:124-148 | feed stop as a step of the machine |
| AvPlayState.Decoder.Ioctl | dvb/drivers/media/dvb/avia/avia_av_napi.c:223-488 | the ioctls as steps of the machine |
| AvMicrocode.ChecksEnd | dvb/drivers/media/dvb/avia/avia_av_core.c:294-299 | the loader writes every section once and in order |
| AvMicrocode.SectionIs | dvb/drivers/media/dvb/avia/avia_av_core.c:238-240 | which header words are length and address, where the data and the next section are, and every write of a section in numbers |
| AvMicrocode.FaithfulReadsBack | dvb/drivers/media/dvb/avia/avia_av_core.c:233-254 | in a faithful memory a section reads back if and only if it does not overwrite a word of its own with a different one |
| AvMicrocode.FaithfulVerified | dvb/drivers/media/dvb/avia/avia_av_core.c:287-307 | the whole load verifies exactly when every section does, even if sections overlap one another |
| AvMicrocode.ChecksClean | dvb/drivers/media/dvb/avia/avia_av_core.c:287-307 | with a faithful memory the image verifies exactly if no section overwrites one of its own words with a different one |
| AvMicrocode.FaithfulLoads | dvb/drivers/media/dvb/avia/avia_av_core.c:287-307 | with sections no longer than the address space a faithful memory always verifies |
| AvMicrocode.CleanLoads | dvb/drivers/media/dvb/avia/avia_av_core.c:287-307 | with a faithful memory an image whose words do not share masked addresses loads without error |
| AvMicrocode.LoadedContents | dvb/drivers/media/dvb/avia/avia_av_core.c:287-307 | after the load every word is at its masked address and every other cell is untouched |
| AvMicrocode.Chip.DramMemcpy32 | dvb/drivers/media/dvb/avia/avia_av_core.c:223-229 | consecutive masked addresses take the words |
| AvMicrocode.Chip.CountErrors | dvb/drivers/media/dvb/avia/avia_av_core.c:248-252 | no errors exactly when all the words read back equal |
| AvMicrocode.Chip.LoadDramImage | dvb/drivers/media/dvb/avia/avia_av_core.c:233-254 | no errors exactly when the section reads back, for every memory |
| AvMicrocode.Chip.LoadMicrocode | dvb/drivers/media/dvb/avia/avia_av_core.c:287-307 | 0 exactly when every section read back after it was written; the writes are those of the image |
| AvMicrocode.Chip.LoadFaithfully | dvb/drivers/media/dvb/avia/avia_av_core.c:287-307 | on a faithful memory the loader returns 0 exactly if every section is clean; if no two words of the image share a masked address it returns 0, every word is in its cell and no other cell has changed |
| Tuner.RoundDivIsNearest | fp/dbox2_fp_napi.c:41-45 | the division rounds to nearest exactly when its sum does not wrap |
| Tuner.EncodeDecode | fp/dbox2_fp_napi.c:122-130 | the bytes sent decode to divider, prescaler and ratio modulo eight |
| Tuner.SearchIsFinest | fp/dbox2_fp_napi.c:114-116 | below the true bound the search stops at the finest ratio whose quotient fits 14 bits |
| Tuner.SearchWraps | fp/dbox2_fp_napi.c:114-116 | between the true bound and the guard the search stops on a wrapped sum with quotient zero |
| Tuner.RatioEight | fp/dbox2_fp_napi.c:114-127 | the programmed ratio is eight exactly from 3815460 kHz on |
| Tuner.TunedExactly | fp/dbox2_fp_napi.c:88-130 | the setting is the nearest step of the finest ratio, with the prescaler cancelled, if and only if the frequency is at most 3815217 kHz |
| Tuner.Sp5668SetTvFreq | fp/dbox2_fp_napi.c:88-136 | return codes, the guard, and bytes that tune the chip exactly up to the true bound |
| Tuner.SplitDivider | fp/dbox2_fp_napi.c:61-63 | the divider split over three bytes is complete |
| Tuner.Sp5659SetTvFreq | fp/dbox2_fp_napi.c:52-72 | within half a step of the frequency plus 36.125 MHz exactly while the rounded sum fits 32 bits, with the right band |

## Left out

- GtAccel.Gt.Copy: the decrement direction, because no caller uses it and its effect is not visible in the code.
- GtAccel.Gt.Crc32: what a sum over a preloaded first word means in hardware, and requests below four bytes with an all-ones seed, whose size wraps.
- GtAccel.Gt.QueueCrc32: a second part below four bytes behind a first sum of all ones on the GTX, whose size wraps.
- IdeCpld.Ide.Insw: the destination must hold the words that are really stored, up to three more than the count.
- IdeCpld.Ide.Outsw: a run that does not end is watched for a number of rounds; the source words are a function of the position.
- SpiBus.SpiHost.Io: delays and write barriers; registers hold levels only, so interrupts on the same port are not modelled.
- MmcBlocks.Mmc.ReadBlock: the card initialisation and the exchange that reads the CSD, which have the shape of a block read.
- MmcGeometry.Disk.CardConfig: the transfer of the register and its three error codes; register versions later than 1.0.
- MmcGeometry.Disk.Request: the request queue; one request is modelled, and the outcome of each block is a parameter.
- LcdConsole.Console.PutData: the font table and `lcd_read`, whose start column is computed differently from every other access.
- RcKeys.Rc.OldQueueHandler: timer expiries at points where the handlers neither test nor delete the timer.
- Dvb2eth.Packetizer.Send: buffer descriptors of the Ethernet driver; a header is what its slot holds when the packet is handed over.
- Dvb2eth.Packetizer.SendStream: arrivals that do not fit 32 bits, and the overflow of the queue itself.
- GtGraphics.Gv.SetInputSize: the scaling and interlace bits and the output position.
- EventRings.Device.Open: failed allocations; ioctl and open are one step each although they take no lock. The table of handles is a sequence of five slots.
- EventRings.Device.Release: the search goes by the handle in a given slot.
- EventRings.Handle.Take: blocking and the user buffer; the outcome of the copy is a parameter.
- VideoEvents.Events.GetEvent: several readers at once.
- VideoEvents.Events.Open: the moment between the two stores, which take no lock.
- AvPlayState.Decoder.Ioctl: commands to the chip are accepted and their contents are not modelled; the stream types of both decoders are one value because the drivers set them together.
- AvMicrocode.Chip.LoadMicrocode: the instruction memory image, and images whose sections do not lie inside the array.
- Tuner.Sp5668SetTvFreq: the bus transfer itself; its outcome is a parameter.
- Module setup, devfs and procfs, memory mapping, wait queues and messages.
- `mmc.c`, `mmc2.c`, `mmc2test.c` and `mmc3test.c`: earlier variants of the same driver.
- The conditional access ring, the infrared receive ring and the I2C descriptor mapping: no invariant of their indices holds over all runs.
- The audio/video switch, video encoder, clock, front processor and info drivers: register setters that would only add easy members.
