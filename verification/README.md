# Verified models of the AT32 Zephyr drivers

This project models the drivers of the AT32 microcontrollers whose correctness rests on more than one
function at a time, and proves what they keep over whole runs. Each driver has its own module, in the form the
C code has: a class with the driver's fields and the hardware state it touches, and methods with the loops and
branches of the C functions. Beside each class stand functions that say what one call or one interrupt does to
the state, and lemmas about every run of them. `dafny verify dfyconfig.toml` checks everything.

- **I2C timing** (`I2cTimingSpec`, `I2cTimingSolver`, `I2cTimingProof`). The version-2 driver searches a prescaler and
  data delays, then SCL low and high times, over a static table of 128 slots, and packs the winner into one register word.
  The prescaler search is shown complete, the SCL search optimal, and the packing lossless. The SCL search also looks at
  slots that are not filled this time, which hold zeros or what an earlier configuration of any controller left. The
  exact condition under which the programmed word meets the bus figures of Table 10, section 6.1 of NXP UM10204 (with the
  driver's rise and fall times, and its own window of a fifth around the rate) is proved for every such table, with the
  400 kHz mode at 84 MHz and at 8 MHz as examples where it does not. At 100 kHz it meets them for every clock from
  1568628 Hz to 2 GHz, and for no slower one.
- **I2C transfer** (`I2cWire`, `I2cTransfer`). The polled version-2 driver cuts messages into chunks of 255 bytes that the
  reload bit of the controller joins. The bus trace of a transfer is proved equal to a function of the message list, and
  that trace equals the one the message flags ask for (START and STOP, section 3.1.4 of NXP UM10204) exactly when no RESTART
  meets a stale reload bit. Without a bus error a transfer ends exactly when every message with bytes finds the controller
  in its own direction, and waits forever otherwise.
- **I2C interrupts** (`I2cInterrupt`, `I2cReceiveV1`). The version-2 handlers and the semaphore they share with a waiting
  thread, over every run; the version-1 reception of N bytes, over every order of its events, with the last byte answered
  by a NACK (section 3.1.6 of NXP UM10204).
- **Counter** (`CounterTicks`, `CounterAlarms`, `CounterInterleavings`). Tick arithmetic with wrapping words, the detection
  of late alarms on a moving counter, and the alarm channels over every run of calls, compare matches and interrupts, also
  with interrupts and other threads inside set_alarm.
- **Flash** (`FlashBanks`, `Flash`). Erase and write loops over two lockable banks of cells that programming can only clear.
  What the device does in each operation (whether the keys unlock, an error at once or late, no effect, no end) is a
  parameter, and the return value, the registers and the cells are functions of it.
- **SPI over DMA** (`SpiDma`, `DmaInterrupt`, `SpiOverDma`). The two-channel chunk protocol over every order of completions,
  the DMA interrupt handler it rests on, and the two together: which flags of the hardware ever reach the protocol.
- **ADC sequencer** (`AdcSequencer`) and **PWM capture** (`PwmCapture`).

Fixed-width arithmetic is written out (`MachineInt`): `U32` and `I32` are the values of wrapping 32-bit expressions.

What the code does and its comments do not say:

- `i2c_compute_scll_sclh` returns the best of all the 128 slots, not of the filled ones; the table is shared by all
  controllers and keeps its slots.
- A negative data-valid bound is replaced by 0, so that slow clocks get a delay of 0 that breaks the bound.
- `i2c_at32_transfer` compares only its first two messages, over and over, and overwrites the error it finds; with 255
  messages in order its 8-bit counter never ends the loop.
- The reload bit stays on until a STOP or an error, so a RESTART after a long or a joined message gets no START, and the
  direction bit is not written either. A read by RESTART after a write of more than 255 bytes waits forever.
- The interrupts of a message are enabled in two writes. An error handler that runs between them ends the message, and the
  second write leaves the data interrupt on after the return.
- A version-1 10-bit read by interrupt never sends its read header.
- `counter_at32_set_cc` computes a wrong distance for the compare value 0 when `top` is no bit mask: short relative alarms
  fire at once, long ones are dropped, and the absolute tick 0 is refused as late.
- Cancelling an alarm leaves its pending bit, which the next alarm of the channel inherits.
- An alarm that is cancelled or called back while its set_alarm runs leaves the interrupt of a free channel enabled.
- The DMA driver never enables the error interrupt, so the error branches of its handler and of the SPI callback are never
  taken: a DMA error leaves the channel busy and the SPI transfer without an end.
- The erase loop does not look whether its keys unlocked the bank: if they did not, it reports success and erases nothing.
- `write_value` leaves its bank unlocked when its first wait fails; error bits are read before BSY falls.
- The range check of the flash accepts ranges that wrap around the address space back into the flash.
- An SPI transfer without data starts no channel and never completes.
- The PWM capture takes the first overflow after the pulse start for its own reset of the counter, but only real overflows
  raise that flag: a single one in the measured period is not reported.

## Model

| member | source | states |
|---|---|---|
| `I2cTimingSpec.GoodPrescsAreAll` | drivers/i2c/i2c_at32.c:1953-1971 | The reference list of prescalers holds exactly those for which some SCLDEL and SDADEL meet the setup and hold conditions, each once, in increasing order. |
| `I2cTimingSolver.Solver.SearchSdadel` | drivers/i2c/i2c_at32.c:1884-1899 | The innermost loop records a prescaler at most once, with the first SDADEL in range, and stops when the table is full. |
| `I2cTimingSolver.Solver.ComputePrescalers` | drivers/i2c/i2c_at32.c:1908-1972 | The table receives the first min(128, count) acceptable prescalers in order, each with its lexicographically least delays; no slot past the count is touched. |
| `I2cTimingSpec.FeasibleBeatsBound` | drivers/i2c/i2c_at32.c:1839-1874 | Every candidate that passes the SCL conditions is closer to the target than the initial bound of the search, so none is missed by it. |
| `I2cTimingSolver.ScanOne` | drivers/i2c/i2c_at32.c:1788-1806 | Replacing the best candidate only by a strictly closer one keeps it the first of the closest ones among all considered so far. |
| `I2cTimingSolver.Solver.LoopSclh` | drivers/i2c/i2c_at32.c:1788-1806 | One candidate is considered: the slot, its SCL fields and the error bound are those of the best candidate so far; prescalers and delays do not change. |
| `I2cTimingSolver.Solver.ComputeSclLowHigh` | drivers/i2c/i2c_at32.c:1814-1877 | For every table, clock and mode the answer is the lexicographically first (slot, SCLL, SCLH) among the feasible ones closest to the target period, and 0xFFFFFFFF exactly when none is feasible; fields stay in range. |
| `I2cTimingSpec.FirstBestIsUnique` | drivers/i2c/i2c_at32.c:1800-1805 | That answer is determined: no two candidates are both the first best. |
| `I2cTimingSpec.UnpackOfPack` | drivers/i2c/i2c_at32.c:1995-2000 | The register word unpacks to exactly the five fields, the prescaler from its two nibbles. |
| `I2cTimingSpec.PackOfUnpack` | drivers/i2c/i2c_at32.c:1995-2000 | Every 32-bit word is the packing of what it unpacks to. |
| `I2cTimingProof.CharacIsOfTheBus` | drivers/i2c/i2c_at32.c:1188-1227 | The driver's table holds the figures of the bus, in nanoseconds, for each mode, and allows rates a fifth above or below. |
| `I2cTimingSolver.CoversIff` | drivers/i2c/i2c_at32.c:1988-1990 | A mode covers exactly the rates at most a fifth off its own, and no rate is covered by two. |
| `I2cTimingSolver.Solver.ConfigureTiming` | drivers/i2c/i2c_at32.c:1975-2005 | For the mode that covers the bit rate, the word unpacks to the winning slot of the completed table, or is 0 when nothing is feasible or no mode covers; in range, from any earlier table, it meets the bus timing if and only if the data-valid bound is reachable and no slot left from before comes closer than every acceptable prescaler. |
| `I2cTimingProof.InRangeIff` | drivers/i2c/i2c_at32.c:1825-1825 | The rounded clock period is in the range where the searches do not wrap exactly for clocks from 30519 Hz to 2 GHz. |
| `I2cTimingProof.SclOkIsExact` | drivers/i2c/i2c_at32.c:1841-1874 | In that range the SCL conditions accept exactly the pairs that meet the low, high and rate bounds. |
| `I2cTimingProof.SclErrorIsExact` | drivers/i2c/i2c_at32.c:1788-1800 | In the same range, what the SCL search minimises is the distance of the SCL period from that of the bus rate. |
| `I2cTimingProof.DelaysOkIsExact` | drivers/i2c/i2c_at32.c:1929-1961 | In the same range, a pair meets the unclamped setup and hold bounds exactly when the search accepts it and the data-valid bound is not negative. |
| `I2cTimingProof.UnfilledSlotWins` | drivers/i2c/i2c_at32.c:1841-1843 | Whatever the table held before, a slot that was not filled wins exactly when some such slot comes strictly closer than every acceptable prescaler. |
| `I2cTimingProof.UnfilledSlotIsUnsound` | drivers/i2c/i2c_at32.c:1841-1874 | The prescaler of such a winner breaks the setup or hold condition with every choice of delays: an acceptable one would have won from an earlier, filled slot. |
| `I2cTimingProof.WinnerMeetsBusTiming` | drivers/i2c/i2c_at32.c:1908-2000 | Whatever the table held before, the winner meets all setup, hold, low, high and rate bounds if and only if the data-valid bound is reachable and no unfilled slot comes strictly closer than every acceptable prescaler. |
| `I2cTimingProof.ZeroPaddedIff` | drivers/i2c/i2c_at32.c:1230-1230 | On a table that is zero past the filled slots, as in the first configuration, that happens exactly when the table is not full and prescaler 0 comes strictly closer than every acceptable one. |
| `I2cTimingSolver.WinnerIsSound` | drivers/i2c/i2c_at32.c:1988-2003 | The packed word read back by the peripheral meets every bus bound exactly then; only the slots past the filled ones, as an earlier configuration left them, matter. |
| `I2cTimingProof.StandardModeFillsTable` | drivers/i2c/i2c_at32.c:1188-1201 | At 100 kHz all 128 slots are filled for every clock in range, so no slot is left to come closer. |
| `I2cTimingProof.DataValidClock` | drivers/i2c/i2c_at32.c:1935-1951 | The data-valid bound is reachable exactly from 1568628 Hz on at 100 kHz, from 10256411 Hz at 400 kHz and from 30769231 Hz at 1 MHz. |
| `I2cTimingSolver.StandardModeIsSound` | drivers/i2c/i2c_at32.c:1188-1201 | At 100 kHz, for every clock in range and every earlier table, the programmed word meets all the bus bounds if and only if the data-valid bound is reachable; a feasible candidate always exists then. |
| `I2cTimingSolver.ConfigureStandard` | drivers/i2c/i2c_at32.c:1975-2005 | A driver configured for 100 kHz from any clock in range programs a word that meets all the bus bounds if and only if the clock is at least 1568628 Hz. |
| `I2cTimingProof.UnfilledSlotWinsAt84MHz` | drivers/i2c/i2c_at32.c:1202-1214 | At 400 kHz from 84 MHz on a fresh table, slot 27, which was never filled, wins and breaks the bus timing. |
| `I2cTimingSolver.ConfigureFirstAt84MHz` | drivers/i2c/i2c_at32.c:1975-2012 | The driver's first configuration for that clock and mode, from its zeroed table, does pick slot 27 and programs such a word. |
| `I2cTimingSolver.ConfigureAt8MHz` | drivers/i2c/i2c_at32.c:1949-1951 | At 400 kHz from 8 MHz, whatever the table held, a word other than 0 is programmed and breaks the data-valid bound. |
| `I2cTransfer.Controller.MsgInit` | drivers/i2c/i2c_at32.c:1235-1270 | With the reload bit set only the count is programmed; otherwise reload is set when the next message is joined, the direction is that of the message, and START with the address is sent. |
| `I2cTransfer.Controller.MsgDone` | drivers/i2c/i2c_at32.c:1663-1686 | STOP is sent and reload cleared exactly when the message asks for it; an error sends none and leaves reload clear. |
| `I2cTransfer.Controller.MsgWrite` | drivers/i2c/i2c_at32.c:1688-1716 | A chunk goes out in order, whole or, on an error, as a prefix without STOP; with bytes to send and the controller receiving it never ends. |
| `I2cTransfer.Controller.MsgRead` | drivers/i2c/i2c_at32.c:1718-1742 | The bytes stored are the bytes received, in order; nothing outside them is touched; with bytes to get and the controller transmitting it never ends. |
| `I2cTransfer.Controller.Transaction` | drivers/i2c/i2c_at32.c:1744-1779 | For any length, 0 and multiples of 255 included, the chunks are one message on the wire: one START if reload was clear, the whole buffer, one STOP if asked for; the reload bit afterwards is (before, or length over 255, or joined) and not STOP. |
| `I2cWire.ChunkContinues` | drivers/i2c/i2c_at32.c:1756-1776 | A further chunk entered with the reload bit set continues the message on the wire as if it had been sent in one piece. |
| `I2cWire.ChunksCover` | drivers/i2c/i2c_at32.c:1748-1776 | The programmed counts are at most 255, all but the last are 255, they are as few as possible and add up to the length. |
| `I2cWire.MsgWireIsExact` | drivers/i2c/i2c_at32.c:1235-1270 | A message event by event: START with the address and the direction unless reload is set, the bytes sent or received in order, and a STOP exactly if asked for. |
| `I2cTransfer.Controller.SendAll` | drivers/i2c/i2c_at32.c:2254-2269 | The wire, the reload and the direction bit after a list of messages are those of the list functions; a failure leaves the wire of the messages before, and part of the failed one; without a bus error the list is done if and only if every message with bytes finds its own direction. |
| `I2cTransfer.Controller.CheckFlags` | drivers/i2c/i2c_at32.c:2222-2246 | The loop ends after finitely many rounds of its counter with the outcome of the comparison of the first pair, for every number of messages on which it ends, 0 included. |
| `I2cWire.PairOkIff` | drivers/i2c/i2c_at32.c:2230-2244 | Of two messages in one direction the first may ask for no STOP; a change of direction needs a RESTART as well; nothing else is asked. |
| `I2cWire.CheckAgreesIff` | drivers/i2c/i2c_at32.c:2225-2246 | It rejects no list in order, and agrees with the rule for all neighbouring messages if and only if the first pair is bad already or the messages from the second on are in order. |
| `I2cWire.CheckMissesLaterStop` | drivers/i2c/i2c_at32.c:2240-2244 | Three messages with a STOP in the second pass the check, against the rule. |
| `I2cWire.CheckEndsIff` | drivers/i2c/i2c_at32.c:2225-2225 | The counter, as the loop of CheckFlags steps it, comes to an end if and only if there are fewer than 255 messages or the first pair is bad, and then with the outcome of that pair. |
| `I2cTransfer.Controller.Transfer` | drivers/i2c/i2c_at32.c:2213-2280 | The first message becomes a RESTART; the wire is the list's, whatever the check found; without a bus error the transfer is done if and only if every message with bytes finds its own direction, and hangs otherwise; once done, the wire is the one the flags ask for if and only if reload was clear and no RESTART meets a stale reload bit. Without shared read buffers the bytes on the wire are those of the buffers, and buffers to be written are not changed. |
| `I2cTransfer.TransferSendsRejected` | drivers/i2c/i2c_at32.c:2230-2263 | Two writes that both ask for a STOP are rejected by the check, and sent and reported done all the same. |
| `I2cTransfer.ReadAfterLongWriteHangs` | drivers/i2c/i2c_at32.c:1243-1262 | Without a bus error, a transfer of a write of more than 255 bytes and a read by RESTART never returns. |
| `I2cWire.StoppedWrites` | drivers/i2c/i2c_at32.c:1243-1268 | The wire of those writes: START, byte and STOP for each; they find their direction, and the check does not pass. |
| `I2cWire.StartsMissing` | drivers/i2c/i2c_at32.c:1243-1268 | The STARTs on the wire and those missed because of the reload bit add up to the STARTs the flags ask for, for every list. |
| `I2cWire.MissingIff` | drivers/i2c/i2c_at32.c:1243-1259 | From a clear reload bit, no START is missed exactly when no RESTART follows, without a STOP, a message over 255 bytes or one that was itself joined. |
| `I2cWire.WireIsIdeal` | drivers/i2c/i2c_at32.c:1235-1270 | The driver's wire equals the wire the flags ask for if and only if reload is clear on entry and that condition holds. |
| `I2cWire.ReadAfterLongWriteNeverEnds` | drivers/i2c/i2c_at32.c:1243-1262 | A read by RESTART after a write of more than 255 bytes misses its START and finds the wrong direction. |
| `I2cWire.WireIsDirectedIff` | drivers/i2c/i2c_at32.c:1243-1262 | On the wire of a list, every byte goes in the direction of the last START if and only if every message with bytes finds its own direction in the controller. |
| `I2cWire.InOrderCompletes` | drivers/i2c/i2c_at32.c:2225-2246 | From a clear reload bit, a list that keeps the rule for neighbouring messages and has no RESTART on a stale reload bit finds every direction, so it ends. |
| `I2cTransfer.NextIsAble` | drivers/i2c/i2c_at32.c:1243-1262 | Whether the next message finds its direction is decided by the flags and lengths of the list up to it. |
| `I2cInterrupt.Driver.EventHandler` | drivers/i2c/i2c_at32.c:1410-1470 | The event interrupt does exactly one event step: bytes first, then NACK, STOP, or completion. |
| `I2cInterrupt.Driver.ErrorHandler` | drivers/i2c/i2c_at32.c:1472-1511 | The error interrupt marks the loss of arbitration before a bus error and ends the transfer. |
| `I2cInterrupt.EventIsExact` | drivers/i2c/i2c_at32.c:1436-1470 | One STOP is requested for a NACK, and one for a completed transfer exactly if the message asks for it; the message ends at a completion without STOP and at the STOP, which alone turns off the peripheral and reload; a NACK is marked and ends nothing. |
| `I2cInterrupt.ErrorIsExact` | drivers/i2c/i2c_at32.c:1487-1511 | A loss of arbitration is marked, a bus error only without one; either ends the message, without a STOP. |
| `I2cInterrupt.Driver.MasterModeEnd` | drivers/i2c/i2c_at32.c:1294-1317 | Interrupts off, reload cleared, peripheral disabled, one give; the position in the message stays. |
| `I2cInterrupt.Driver.BeginMessage` | drivers/i2c/i2c_at32.c:1520-1528 | A message starts at the first byte of its buffer with the reload bit of msg_init; events and errors are enabled, data is not yet; a write keeps an old arbitration mark, a read clears it. |
| `I2cInterrupt.BeginIsExact` | drivers/i2c/i2c_at32.c:1519-1528 | A message begins at its first byte with no STOP requested and no mark but an old loss of arbitration, which a write keeps; reload stays or is set for a joined message. |
| `I2cInterrupt.Driver.EnableDataInterrupt` | drivers/i2c/i2c_at32.c:1529-1529 | The second enable is a step of its own. |
| `I2cInterrupt.Driver.EndMessage` | drivers/i2c/i2c_at32.c:1531-1566 | After a take in time or a timeout the state is that of the step, with the marks cleared; success means in time and without a mark. |
| `I2cInterrupt.RunsAreSafe` | drivers/i2c/i2c_at32.c:1274-1566 | Over every run, every state is safe if and only if no data interrupt is enabled for a message that was already given: offset plus remaining length is the message length; during a message the interrupts are off exactly when its one give is outstanding; between messages they are off, the semaphore is down and no mark is left; the reload bit is set only on an enabled peripheral. |
| `I2cInterrupt.HandlersInMessage` | drivers/i2c/i2c_at32.c:1528-1536 | Handlers between the two enables, or during the wait, leave the message safe, and the semaphore down exactly when none of them gives. |
| `I2cInterrupt.DisturbedStartStoresAfterReturn` | drivers/i2c/i2c_at32.c:1583-1598 | An arbitration loss between the two enables of a read: the read returns with the data interrupt on, and a byte that comes then is stored into its buffer. |
| `I2cInterrupt.WaitingEnds` | drivers/i2c/i2c_at32.c:1531-1536 | In every safe state a waiting thread can go on, and that keeps the state safe. |
| `I2cInterrupt.RaceIsSafe` | drivers/i2c/i2c_at32.c:1531-1536 | Any sequence of events and errors between a timed-out take and the disabling of the interrupts is harmless exactly when none of them gives the semaphore. |
| `I2cInterrupt.StrayGiveEndsNextMessage` | drivers/i2c/i2c_at32.c:1531-1543 | If it does, the next message can be reported complete before its first byte. |
| `I2cInterrupt.EventsMoveInOrder` | drivers/i2c/i2c_at32.c:1421-1434 | In either direction, bytes moved and events with the data register not ready add up to the position; without such events the bytes moved are exactly those of the buffer before the position. |
| `I2cInterrupt.MessageIsCompleteIff` | drivers/i2c/i2c_at32.c:1421-1434 | The bytes sent, or received, are those of the buffer before the position if and only if no event came with bytes remaining and the data register not ready. |
| `I2cInterrupt.SuccessMeansSent` | drivers/i2c/i2c_at32.c:1421-1465 | On a device that reports a transfer complete only when all its bytes were put into the register, a write that returns success has sent every byte in order, and requested a STOP exactly if the message asks for one. |
| `I2cInterrupt.SuccessMeansReceived` | drivers/i2c/i2c_at32.c:1421-1465 | On such a device, a read that returns success has filled its buffer with the first bytes that arrived in the receive register, in order and without a gap. |
| `I2cInterrupt.NormalMessageSucceeds` | drivers/i2c/i2c_at32.c:1421-1465 | Every message, read or write, can succeed: one ready event for each byte, the completion, and the STOP if asked for, are lawful and lead to a state in which the thread takes its semaphore without a mark, all bytes moved, and exactly one STOP requested if the message asks for it, none otherwise. |
| `I2cInterrupt.NackedMessageFails` | drivers/i2c/i2c_at32.c:1436-1453 | A NACK after any number of bytes is answered by one STOP, and the message ends with the mark that makes it fail. |
| `I2cInterrupt.TakenInOrder` | drivers/i2c/i2c_at32.c:1426-1434 | Over every run of handlers, the bytes taken are the first of those that arrived. |
| `I2cReceiveV1.Receiver.HandleAddr` | drivers/i2c/i2c_at32.c:319-359 | The address step for 0, 1, 2 and more bytes: STOP, NACK, POS. |
| `I2cReceiveV1.Receiver.HandleRxne` | drivers/i2c/i2c_at32.c:391-445 | One data-register event, on the buffer, is the step of the specification in every case of the remaining length. |
| `I2cReceiveV1.Receiver.HandleBtf` | drivers/i2c/i2c_at32.c:447-486 | One byte-transfer event likewise: the last two bytes after STOP, the third last after NACK. |
| `I2cReceiveV1.EveryOrderIsOnSchedule` | drivers/i2c/i2c_at32.c:319-486 | Over every order of events for N >= 1: stored plus remaining is N; 1 remains only if N = 1; ACK is off whenever 2 or fewer remain; the thread is woken exactly when nothing remains. |
| `I2cReceiveV1.PosForTwoBytes` | drivers/i2c/i2c_at32.c:345-358 | Over every order of events for N >= 1, POS is set exactly for N = 2. |
| `I2cReceiveV1.UnreadMeansSilent` | drivers/i2c/i2c_at32.c:397-432 | A handler that leaves a byte unread turns the data interrupt off, except with two left of more than two. |
| `I2cReceiveV1.DataInterruptStays` | drivers/i2c/i2c_at32.c:397-437 | With more than three bytes to go the data interrupt is on. |
| `I2cReceiveV1.CompletingEvent` | drivers/i2c/i2c_at32.c:447-486 | For N >= 2 the last event leaves N bytes stored, ACK off before byte N-2, one STOP before the last two bytes if asked for, one give. |
| `I2cReceiveV1.OneByteMessage` | drivers/i2c/i2c_at32.c:345-350 | A one-byte read gets a STOP at its address even without the flag, and two with it. |
| `I2cReceiveV1.SingleByteTaken` | drivers/i2c/i2c_at32.c:399-413 | A single remaining byte is taken with ACK and POS off and the data interrupt disabled, whatever they were before, and the thread is woken. |
| `I2cReceiveV1.FirstOfTwoPrepares` | drivers/i2c/i2c_at32.c:414-432 | The first of two bytes is left in the register with ACK off, POS on and the data interrupt off, whatever they were before. |
| `I2cReceiveV1.EmptyMessage` | drivers/i2c/i2c_at32.c:345-346 | A read of no bytes asks for a STOP at its address, and for another and a wake-up at every event. |
| `I2cReceiveV1.StoredIsPrefix` | drivers/i2c/i2c_at32.c:391-486 | Over every order of events, the bytes stored are the first bytes that the data register gave, in order and without a gap. |
| `I2cReceiveV1.PolledRead` | drivers/i2c/i2c_at32.c:997-1068 | The polled loop stores the N bytes in order with the same NACK and STOP points as the handlers for N >= 2, addressed or longer than 2; ACK stays on exactly for N = 0 and for unaddressed reads of at most 2 bytes; POS is set exactly for an addressed read of 2. |
| `I2cReceiveV1.TenBitReadNeverStarts` | drivers/i2c/i2c_at32.c:293-333 | By interrupt, a 10-bit read asks for START after START and never sends its read header; a 7-bit read sends it at once. |
| `I2cReceiveV1.SecondStartReads` | drivers/i2c/i2c_at32.c:293-307 | With the mark kept, a second START would send the read header: the first sends the write header and sets the mark. |
| `I2cReceiveV1.MatchAsksIff` | drivers/i2c/i2c_at32.c:307-333 | Only a 10-bit read whose mark is set asks for a second START at its address match; a 7-bit read sends its read header at each START. |
| `CounterTicks.TicksAddIsModular` | drivers/counter/counter_at32_timer.c:238-249 | Both paths add modulo top + 1 for all operands up to top, in wrapping 32-bit words, top = 2^32 - 1 included. |
| `CounterTicks.TicksSubIsModular` | drivers/counter/counter_at32_timer.c:251-259 | Both paths subtract modulo top + 1. |
| `CounterTicks.AlarmDistanceIsModular` | drivers/counter/counter_at32_timer.c:323-326 | The distance used for late detection is the modular one if and only if the compare value is not 0 or top is a bit mask, and what it is otherwise. |
| `CounterTicks.RelativeAlarm` | drivers/counter/counter_at32_timer.c:297-342 | What becomes of every relative alarm, for any motion of the counter between its two reads: with the right distance it is armed while its target is ahead, pending if it passed by fewer than top - top/2 ticks, and armed always if top/2 or longer; with the wrong one, pending or dropped, with the exact condition on the second read. |
| `CounterTicks.ArmedWhileAhead` | drivers/counter/counter_at32_timer.c:315-342 | While its target is ahead, an alarm is armed if and only if the compare value is not 0, or top is a bit mask, or the second read is that far. |
| `CounterTicks.AbsoluteAlarm` | drivers/counter/counter_at32_timer.c:302-330 | An absolute alarm counts as late exactly when its target lies less than the guard period behind the counter; with the compare value 0 and no bit mask, exactly when the second read is below 2^32 - 1 - top + guard. |
| `CounterTicks.AbsoluteDecision` | drivers/counter/counter_at32_timer.c:302-342 | An absolute alarm that is not late is armed; a late one is made pending exactly if it asks to expire, and is dropped otherwise. |
| `CounterTicks.CompareValueIsTarget` | drivers/counter/counter_at32_timer.c:315-319 | The compare register is given the tick itself, or the tick that far from the counter, modulo top + 1. |
| `CounterTicks.AlarmsAtZeroExample` | drivers/counter/counter_at32_timer.c:323-340 | With top 1000: 1000 ticks at count 1 are dropped, 400 ticks at count 601 fire at once, and the absolute tick 0 is late at count 1. |
| `CounterAlarms.Counter.SetAlarm` | drivers/counter/counter_at32_timer.c:346-362 | Refused above top or while one is registered; otherwise the set step, with the return value it calls for. |
| `CounterAlarms.Counter.SetCc` | drivers/counter/counter_at32_timer.c:271-344 | The channel becomes armed, pending or free exactly as the decision on the two reads says; -ETIME for a late absolute alarm. |
| `CounterAlarms.Counter.CancelAlarm` | drivers/counter/counter_at32_timer.c:364-373 | The interrupt is disabled, the alarm removed, the pending bit left alone. |
| `CounterAlarms.CancelledStaysSilent` | drivers/counter/counter_at32_timer.c:364-373 | Over every run after it, a cancelled alarm is not called back. |
| `CounterAlarms.Counter.CcIrqHandle` | drivers/counter/counter_at32_timer.c:565-617 | A channel with an enabled flag or a pending bit is freed and its alarm called back; otherwise nothing happens. |
| `CounterAlarms.ServiceIsExact` | drivers/counter/counter_at32_timer.c:565-617 | A pending channel, or one with an enabled flag, is freed, disabled and no longer pending, with the flag cleared if it was enabled and one callback; any other is left alone. |
| `CounterAlarms.Counter.IrqHandler` | drivers/counter/counter_at32_timer.c:619-646 | The handler comes to the channels from the highest to the lowest, then serves the update event once; what it and the callbacks, which may set and cancel alarms, do to the channels is a run of the model with exactly those handler steps, and one pass if no callback calls the driver. |
| `CounterAlarms.StepKeepsInv` | drivers/counter/counter_at32_timer.c:261-373 | Every call, match and interrupt keeps the channel, registration and callback invariants. |
| `CounterAlarms.AlarmsAreSafe` | drivers/counter/counter_at32_timer.c:261-617 | In every reachable state a registered alarm has its interrupt enabled or its pending bit set, and the callbacks made are those of the alarms whose fate says so, each once. |
| `CounterAlarms.FatesAreFinal` | drivers/counter/counter_at32_timer.c:346-617 | An alarm that was called, cancelled or lost stays so. |
| `CounterAlarms.SetFindsInterruptDisabled` | drivers/counter/counter_at32_timer.c:290-291 | After every run, a set_alarm that is not refused finds the compare interrupt of its channel disabled, as the assertion in set_cc demands. |
| `CounterAlarms.AbsoluteAlarmFate` | drivers/counter/counter_at32_timer.c:302-342 | A just missed absolute alarm is reported as late, and called back by the next interrupt exactly if it asks to expire; any other waits for its match, is called back after that, and not before. |
| `CounterAlarms.RelativeAlarmFate` | drivers/counter/counter_at32_timer.c:306-342 | A relative alarm with the right distance is never refused as late, is programmed that far from the first read, is called back after its match, and before it exactly if it is short and its target was passed between the reads. |
| `CounterAlarms.RefusedIff` | drivers/counter/counter_at32_timer.c:346-358 | -EINVAL exactly above the top value, -EBUSY exactly for a lower target on a channel in use; a refusal changes nothing. |
| `CounterAlarms.StalePendingIff` | drivers/counter/counter_at32_timer.c:261-266 | In every run, a channel is free and still pending exactly when one of its alarms came too late, was cancelled before a handler ran, and none was accepted since. |
| `CounterAlarms.StalePendingFiresEarly` | drivers/counter/counter_at32_timer.c:574-585 | An armed alarm is called back by the next interrupt, before any match, exactly when the pending bit was left over. |
| `CounterAlarms.StalePendingExample` | drivers/counter/counter_at32_timer.c:364-373 | A run from reset without any compare match in which the second alarm is called back. |
| `CounterAlarms.InterruptInsideSet` | drivers/counter/counter_at32_timer.c:358-361 | The channel's own handler inside set_alarm does nothing unless a pending bit was left over; then it calls the new alarm back, and the invariant survives if and only if the alarm was late. |
| `CounterAlarms.OtherInterruptInsideSet` | drivers/counter/counter_at32_timer.c:358-361 | A handler of another channel inside set_alarm is as one after it. |
| `CounterAlarms.MatchInsideSet` | drivers/counter/counter_at32_timer.c:300-342 | A compare match inside set_alarm, after the flag was cleared, is as one after it. |
| `CounterInterleavings.SetIsBeginEnd` | drivers/counter/counter_at32_timer.c:346-362 | A set_alarm without anything inside it is the one step of the coarse runs. |
| `CounterInterleavings.StepKeepsFineIff` | drivers/counter/counter_at32_timer.c:271-373 | With set_alarm in two parts, every step keeps the invariants if and only if it is no decision that arms a free channel, drops another alarm, or drops its own on an armed channel. |
| `CounterInterleavings.FineRunsAreSafeIff` | drivers/counter/counter_at32_timer.c:271-617 | Over every run, with interrupts, cancels and other set_alarm calls inside set_alarm, the invariants hold throughout if and only if no decision is of that kind. |
| `CounterInterleavings.FineAlarmsAreSafe` | drivers/counter/counter_at32_timer.c:271-617 | After such a run from reset, a registered alarm that is not just being set has its interrupt enabled or its pending bit set, and exactly the alarms whose fate says so were called back, each once. |
| `CounterInterleavings.UndisturbedIsHarmless` | drivers/counter/counter_at32_timer.c:346-362 | While no alarm is cancelled, or called back because of a pending bit left over, during its own set_alarm, every run is safe. |
| `CounterInterleavings.TakenAwayIsHarmful` | drivers/counter/counter_at32_timer.c:338-342 | When one is, and its decision follows, the invariants survive exactly if the alarm was not in time. |
| `CounterAlarms.IrqServesAll` | drivers/counter/counter_at32_timer.c:619-639 | One run of the handler calls back every alarm that was due, leaves no channel due, and changes no other channel. |
| `FlashBanks.PageInOneBank` | drivers/flash/flash_at32_v1.c:35-52 | The banks meet at a page boundary: every byte of a page lies in the bank of its first byte, which is the one that the erase loop unlocks. |
| `Flash.Controller.GetsOwner` | drivers/flash/flash_at32_v1.c:35-47 | get_bank points at the registers of the bank that holds the cell, the first one below 2 MB, and for a page at those of all its bytes. |
| `Flash.ValidRangeIff` | drivers/flash/flash_at32.c:36-43 | The range check accepts exactly the aligned ranges inside the flash and those that wrap around 32 bits back into it. |
| `Flash.WrappingErase` | drivers/flash/flash_at32_v1.c:190-190 | A range that wraps back is accepted, and its erase goes through no page, or through the one in which it begins and ends. |
| `Flash.WrappingEraseExample` | drivers/flash/flash_at32_v1.c:190-190 | The range of 0xFFFFF000 bytes from 8192 is accepted, and its erase goes through no page. |
| `Flash.Registers.WaitIdle` | drivers/flash/flash_at32_v1.c:110-134 | -EIO exactly when an error bit was set at the start or BSY outlasts the reading after the time limit; a late error is left in the error bits. |
| `FlashBanks.ExpiresIff` | drivers/flash/flash_at32_v1.c:122-131 | The wait times out exactly when a look at the clock finds the limit over and the status read once more after that still shows BSY. |
| `Flash.Controller.WriteValue` | drivers/flash/flash_at32_v1.c:136-177 | Return value, registers of the bank that holds the word, and word are exactly those of one write, for every device. |
| `FlashBanks.WordOutcome` | drivers/flash/flash_at32_v1.c:145-176 | A word is refused on a bank that stays locked; it is not attempted, and the bank left unlocked, when error bits are set or BSY stays at the start; otherwise it takes effect as the device has it, the bank is locked and the enable off. |
| `Flash.Controller.WriteRange` | drivers/flash/flash_at32_v1.c:211-230 | The words are programmed in order up to the first that fails and none after it; every return value is that of its word; a range past the flash is followed up to there. |
| `Flash.Controller.ErasePage` | drivers/flash/flash_at32_v1.c:192-201 | Return value, registers of the bank that holds the page, and page are exactly those of one erase, for every device, which erases no page through the registers of the other bank. |
| `FlashBanks.PageOutcome` | drivers/flash/flash_at32_v1.c:192-201 | A page is erased exactly if its bank is open or opens and the device does it; the bank ends locked in any case, and on one that stays locked nothing happens and no error is raised. |
| `Flash.Controller.EraseLoop` | drivers/flash/flash_at32_v1.c:179-209 | After the first wait, the pages from the first to the last are attempted in order up to the first that fails. |
| `FlashBanks.DoneIffOpen` | drivers/flash/flash_at32_v1.c:190-205 | When all report success and no error bit is left, an operation took effect if and only if its bank was open when it began. |
| `FlashBanks.LoopOutcome` | drivers/flash/flash_at32_v1.c:190-227 | The same for a whole loop, and from locked banks: if and only if the keys unlocked; when a loop fails, every open operation before the last two of its bank took effect. |
| `FlashBanks.LockedAfter` | drivers/flash/flash_at32_v1.c:147-174 | From locked banks both end up locked, unless the last write found its bank not idle. |
| `FlashBanks.EnablesAreOff` | drivers/flash/flash_at32_v1.c:72-75 | After any number of operations, failed ones included, both enables of both banks are off. |
| `FlashBanks.FaultFree` | drivers/flash/flash_at32_v1.c:136-227 | Without a fault every operation reports success and takes effect, and no error bit is set. |
| `FlashBanks.LockedEraseIsSilent` | drivers/flash/flash_at32_v1.c:193-199 | When the keys fail, every page reports success, none is erased and no error bit is set. |
| `Flash.Controller.Read` | drivers/flash/flash_at32.c:50-69 | A valid range inside the flash is copied to the start of the buffer, its rest stays; one that wraps runs past the flash; otherwise -EINVAL and no change. |
| `Flash.Controller.Erase` | drivers/flash/flash_at32.c:71-95 | -EINVAL exactly for an invalid range; exactly the pages of the range that took effect are all ones; from locked banks, success without error bits means each page is erased if and only if the keys unlocked its bank; locked banks end locked. |
| `Flash.Controller.Write` | drivers/flash/flash_at32.c:97-121 | -EINVAL exactly for an invalid range; success without error bits means every word inside the flash was programmed; nothing else changes; locked banks end locked on success. |
| `Flash.EraseThenWrite` | drivers/flash/flash_at32_v1.c:136-230 | After a full erase and a full write inside it, the cells hold the data; the rest of the erased pages is ones and everything else as before. |
| `Flash.ProgramClears` | drivers/flash/flash_at32_v1.c:162-162 | Programming sets no bit, and stores the data exactly if none would have to be set. |
| `Flash.EraseWriteRead` | drivers/flash/flash_at32.c:50-121 | A session without a fault: what is erased and then written reads back through the entry points, nothing else has changed, and locked banks are locked again. |
| `Flash.EraseWithFailingKeys` | drivers/flash/flash_at32.c:71-95 | An erase of locked banks whose keys fail returns 0 and changes nothing at all. |
| `SpiDma.ChunksCover` | drivers/spi/spi_at32.c:282-282 | The chunk sizes of a transfer add up to the longer of its two sides. |
| `SpiDma.ChunkIsLongest` | drivers/spi/spi_at32.c:282-282 | A chunk is the longest that lies within the current buffer of each side, so at least one buffer ends with it. |
| `SpiDma.ChunksAreFew` | drivers/spi/spi_at32.c:282-282 | There are at most as many chunks as buffers. |
| `SpiDma.Driver.DmaSetup` | drivers/spi/spi_at32.c:251-321 | A channel is programmed with the current chunk, and busy, unless the DMA driver refuses. |
| `SpiDma.SetupIsExact` | drivers/spi/spi_at32.c:282-307 | The transmit channel takes the bytes of the chunk, the receive channel the room for it, and each is busy with its size. |
| `SpiDma.Driver.StartDmaTransceive` | drivers/spi/spi_at32.c:323-350 | Each channel that is idle and has not done its part is programmed, the receive channel first; when that fails both are stopped and the error is returned. |
| `SpiDma.StartOutcome` | drivers/spi/spi_at32.c:333-350 | When the receive channel is refused nothing is programmed; when only the transmit channel is, the receive channel was programmed; the error of the first refused one is returned and both are stopped. |
| `SpiDma.Driver.Complete` | drivers/spi/spi_at32.c:501-517 | Both channels are stopped and the status is signalled once. |
| `SpiDma.Driver.DmaCallback` | drivers/spi/spi_at32.c:552-602 | One completion is the step of the protocol: count, wait for the other channel, advance, go on or complete, or complete with the error of a set-up. |
| `SpiDma.Driver.Transceive` | drivers/spi/spi_at32.c:426-445 | A transfer starts with both counts at zero and its first chunk programmed. |
| `SpiDma.FirstOfChunk` | drivers/spi/spi_at32.c:566-578 | The first channel to finish a chunk changes its own count only: the context waits for the other. |
| `SpiDma.SecondOfChunk` | drivers/spi/spi_at32.c:578-598 | The second one advances the context by the chunk, and both channels get the next chunk or the end is signalled. |
| `SpiDma.StepKeepsTransfer` | drivers/spi/spi_at32.c:552-602 | Every completion keeps the sizes programmed, the bytes sent and the frames received, each plus those to come, equal to those of the whole transfer, or ends it properly. |
| `SpiDma.FailureFinishes` | drivers/spi/spi_at32.c:560-565 | A failed completion stops both channels and signals its status once; the DMA driver never reports one. |
| `SpiDma.SetupFailureFinishes` | drivers/spi/spi_at32.c:598-601 | So does a set-up that fails, with its own error. |
| `SpiDma.OutgoingAfter` | drivers/spi/spi_at32.c:287-293 | The data of a chunk and what goes out after it are the data and padding zeros of the transfer. |
| `SpiDma.IncomingAfter` | drivers/spi/spi_at32.c:300-306 | The frames of a chunk and those after it go to buffers or are dropped as those of the transfer. |
| `SpiDma.EveryOrderTransfersAll` | drivers/spi/spi_at32.c:323-602 | For every non-empty transfer and every order of completions without a failure, the transfer ends after exactly two completions for each chunk and not before: one signal, each channel programmed once for each chunk, all bytes out in order, and the first incoming frames stored up to the room there is. |
| `SpiDma.EmptyTransferNeverCompletes` | drivers/spi/spi_at32.c:331-339 | A transfer without data starts no channel and signals nothing. |
| `DmaInterrupt.ClearIsExact` | drivers/dma/dma_at32.c:237-241 | Clearing a flag takes that bit out of its channel's nibble and leaves every other nibble alone. |
| `DmaInterrupt.Controller.FlagGet` | drivers/dma/dma_at32.c:249-258 | A flag counts exactly when it is raised and its interrupt is enabled. |
| `DmaInterrupt.Controller.ServeChannel` | drivers/dma/dma_at32.c:619-646 | The handler's body for one channel, on the registers, is the abstract step. |
| `DmaInterrupt.Controller.Isr` | drivers/dma/dma_at32.c:611-648 | The handler on the registers is one abstract pass over all channels. |
| `DmaInterrupt.ServedIsFirst` | drivers/dma/dma_at32.c:626-646 | A pass serves the first wanted source of a channel in the order half, full, error, and the next pass a later one. |
| `DmaInterrupt.PassServesOneEach` | drivers/dma/dma_at32.c:617-647 | A pass serves for each channel one enabled pending flag, half before full before error, with one callback, and leaves all else alone. |
| `DmaInterrupt.DrainServesAll` | drivers/dma/dma_at32.c:611-648 | Three passes serve every enabled flag; busy falls exactly when a full or error flag was served. |
| `DmaInterrupt.DrainCallsOnceEach` | drivers/dma/dma_at32.c:611-648 | In those passes each enabled flag gets exactly one callback. |
| `DmaInterrupt.Controller.Configure` | drivers/dma/dma_at32.c:402-466 | A channel that exists gets its full interrupt, the half one only for a reload, the error one never, and its callback; another is refused. |
| `DmaInterrupt.ConfiguredWants` | drivers/dma/dma_at32.c:448-457 | A configured channel is interrupted by its full flag, by its half flag exactly for a reload, and by no other. |
| `DmaInterrupt.ResetIsExact` | drivers/dma/dma_at32.c:402-402 | The reset of a channel turns its interrupts off and keeps all of its flags or none. |
| `DmaInterrupt.Controller.Stop` | drivers/dma/dma_at32.c:532-554 | The full and half flags and enables are cleared and the channel is idle; its error flag stays. |
| `DmaInterrupt.StoppedIsSilent` | drivers/dma/dma_at32.c:546-551 | Over every run after a stop without a new configuration, whatever flags are raised, the channel makes no callback. |
| `DmaInterrupt.StopForgetsFlags` | drivers/dma/dma_at32.c:546-551 | A flag from before a stop is not reported to the next transfer of the channel. |
| `DmaInterrupt.ErrorsAreSilent` | drivers/dma/dma_at32.c:448-457 | Over every run of configurations, starts, stops, raised flags and handler passes from reset, no callback reports an error. |
| `DmaInterrupt.FailedChannelStaysBusy` | drivers/dma/dma_at32.c:617-647 | A busy channel whose full flag never comes stays busy, and no callback reports its end, until a client stops it. |
| `SpiOverDma.NextKeepsLinked` | drivers/spi/spi_at32.c:552-602 | Every flag and every served channel keeps the busy marks, enables and flags of the two channels in step with the state of the SPI transfer. |
| `SpiOverDma.OnlyFullIsServed` | drivers/dma/dma_at32.c:619-646 | For a channel of the SPI driver only a full flag is ever served, so its callback gets no error. |
| `SpiOverDma.JointRefines` | drivers/spi/spi_at32.c:552-602 | Whatever flags the hardware raises, the SPI driver goes through a run of its own protocol in which nothing fails. |
| `SpiOverDma.JointTransfersAll` | drivers/spi/spi_at32.c:552-602 | Over every such run the end is signalled after two served full flags for each chunk, without an error and with everything transferred, and not at all before. |
| `SpiOverDma.WorkIsServed` | drivers/dma/dma_at32.c:619-646 | A channel at work without an error can raise its full flag, and the handler then makes the next step of the protocol of it. |
| `SpiOverDma.ErrorHangsTransfer` | drivers/spi/spi_at32.c:560-565 | After an error of a channel before its full flag, that channel stays busy and no completion is ever signalled. |
| `SpiOverDma.ErrorFails` | drivers/dma/dma_at32.c:619-646 | Such an error can come at any time while a channel is at work. |
| `AdcSequencer.BitsAreAll` | drivers/adc/adc_at32.c:508-512 | The reference list of channels holds exactly the set bits of the mask, in ascending order. |
| `AdcSequencer.BitsWithoutLowest` | drivers/adc/adc_at32.c:512-514 | Taking the lowest bit out of the mask takes the first channel out of the list. |
| `AdcSequencer.SlotsAreApart` | drivers/adc/adc_at32.c:479-495 | Setting one 5-bit slot leaves every other slot of the register alone. |
| `AdcSequencer.LengthIsApart` | drivers/adc/adc_at32.c:522-523 | The length field and the slots of its register do not disturb each other. |
| `AdcSequencer.Adc.SequencerChannelSet` | drivers/adc/adc_at32.c:448-496 | The registers are those with the channel in that one slot; a number past 16 changes nothing. |
| `AdcSequencer.SetSlotIsExact` | drivers/adc/adc_at32.c:479-495 | Over the three registers, exactly that slot changes, and the length stays. |
| `AdcSequencer.SlotsFromClear` | drivers/adc/adc_at32.c:479-495 | Where each slot lies: 1 to 6 in osq3, 7 to 12 in osq2, 13 to 16 in osq1, 5 bits each from the low end. |
| `AdcSequencer.Adc.SetSequencer` | drivers/adc/adc_at32.c:498-525 | For every mask, the slots decode to its set bits in ascending order, unused slots stay, and the length is the bit count minus one in 4 bits. |
| `AdcSequencer.Adc.StartRead` | drivers/adc/adc_at32.c:527-556 | -EINVAL for an empty mask or a resolution that is not in the table; for 1 to 16 channels the length field is the channel count minus one and the sequence is complete. |
| `PwmCapture.Capture.EnableCapture` | drivers/pwm/pwm_at32.c:624-673 | Refused for a bad channel, while a capture is active, or without a callback; otherwise the capture starts with only its own interrupts on. |
| `PwmCapture.Capture.DisableCapture` | drivers/pwm/pwm_at32.c:675-700 | The channel's interrupt and the overflow interrupt are off, both channels of the capture are off, the request source is reset. |
| `PwmCapture.ChannelsArePaired` | drivers/pwm/pwm_at32.c:57-57 | The channels of a capture are 1 with 2, and 3 with 4. |
| `PwmCapture.Capture.Isr` | drivers/pwm/pwm_at32.c:702-795 | The interrupt handler is one step of the capture machine. |
| `PwmCapture.BeforeSecondCapture` | drivers/pwm/pwm_at32.c:725-775 | Until the second capture since the start there is no callback, and phase and overflow count are a function of the history. |
| `PwmCapture.SecondCaptureReports` | drivers/pwm/pwm_at32.c:746-795 | The second capture makes one callback with its counts, -ERANGE exactly when overflows outside the wait for the update were counted (in 32 bits); a one-shot capture is then disabled, a continuous one restarts. |
| `PwmCapture.SecondCaptureGives` | drivers/pwm/pwm_at32.c:756-795 | The callback gives the period that this capture found as the period and the pulse as the pulse, each exactly if it is wanted, 0 otherwise. |
| `PwmCapture.StatusIsRightIff` | drivers/pwm/pwm_at32.c:725-735 | The status says whether the measured period had an overflow if and only if, with one, the other overflows since the start are not a multiple of 2^32, and, with none, all of them are. |
| `PwmCapture.OverflowMissedIff` | drivers/pwm/pwm_at32.c:664-672 | With fewer than 2^32 overflows, a measured period with an overflow is reported without an error exactly when it is the only one since the start, and one without is reported with an error exactly when the wait for the pulse had one. |
| `PwmCapture.ContinuousCapture` | drivers/pwm/pwm_at32.c:784-795 | Over every history, cut at every second capture: one callback for each span, with the period and pulse of its last capture and the status of that span, none for the open rest. |
| `PwmCapture.OneShotOnce` | drivers/pwm/pwm_at32.c:784-786 | Over every run a one-shot capture calls back at most once, and exactly when its second capture came. |
| `PwmCapture.IdleHandlerReportsAgain` | drivers/pwm/pwm_at32.c:773-795 | Only the disabled interrupts prevent a second callback: the handler run in the idle state reports again. |

## Left out

- I2C target mode and the SMBus alert, in both variants of the driver; PEC and digital filtering (its coefficient is 0 in every mode).
- Device tree, clocks, resets, pins, power management, logging, the USB, USART and GPIO drivers, and the inside of the vendor's register library and of the kernel: each register access or kernel call is the plain effect it is used for.
- The 16-bit timing code of the version-1 driver and the clock that is passed to the solver: the clock is a parameter.
- I2cTimingSolver.Solver.ConfigureTiming: the bus figures are claimed for clocks from about 30.5 kHz to 2 GHz, where no expression of the searches wraps; outside that range only the searches themselves are described, with their wrap-around, and signed overflow in the hold bounds is taken to wrap.
- I2cTransfer.Controller.Transfer: with 255 messages only a bad first pair lets the check of the flags end, so the contract asks for one then. When messages share a buffer that is read into, what the buffer holds in the end is not described, only the wire. The bus and power locks around the transfer are not modelled.
- I2cTransfer.Controller.AwaitFlag: a wait ends with its flag, with a bus error at the moments that a parameter names, or never, when it is for a byte in the direction that the controller is not in; that the controller moves bytes only in its direction is a property of the device. The wait for STOP to appear is taken to end. Received bytes are arbitrary.
- I2cInterrupt.RunsAreSafe: the handlers run as whole steps. The chunks and lists of messages above the interrupt-driven message are not modelled again.
- I2cInterrupt.SuccessMeansSent: in this and its counterpart for a read, the device reports the end of a transfer only after its last byte, and a STOP only after one was requested.
- I2cReceiveV1.EveryOrderIsOnSchedule: reads with a 7-bit address and without errors or timeouts, from the address match on, so that the POS bit that the START of a two-byte read sets already is not shown; writes by interrupt are not modelled. ACK is off before byte N-2 for N > 3, at the address or before the first byte for fewer.
- I2cReceiveV1.PolledRead: the waits for flags succeed; the address phase, 10-bit addressing included, is reduced to whether it took place.
- CounterAlarms.AlarmsAreSafe: setting an alarm is one step of these runs; in those of `CounterInterleavings` it is two. User data, start and stop, a change of the top value, and the interrupt line raised for a pending alarm are not modelled.
- CounterAlarms.Counter.IrqHandler: no compare match comes during the handler.
- Flash.ValidRangeIff: the kernel's page lookup is taken to succeed exactly inside the flash.
- Flash.Controller.Write: a write or a read that runs past the flash is followed up to there; what the bus does then is not modelled.
- Flash.Controller.Erase: that an operation which was started without effect raises an error bit or never ends is a property of the device, named where it is used. Mass erase, option bytes and execution from flash are not modelled.
- SpiDma.EveryOrderTransfersAll: 8-bit words only, because 16-bit transfers set up the buffers with frames of 1 byte and advance by 2; the busy mark falls in the same step as its callback. Transfers without DMA are not modelled; a missing transmit buffer sends zeros.
- DmaInterrupt.DrainServesAll: no flag is raised while the passes run. Registers are sequences of bits.
- DmaInterrupt.Controller.Configure: the interrupts and the refusal of a channel that does not exist; other refusals, addresses, the reload call and the width mapping, which swaps byte and word, are not modelled. The reset of a channel, which is in the vendor's library, is taken to clear its control register, and may or may not clear its flags.
- SpiOverDma.ErrorHangsTransfer: that a channel stopped by an error raises no full flag is a property of the device. The kernel's time limit on the wait for the end is not part of this model.
- AdcSequencer.Adc.StartRead: ends before the check of the buffer, oversampling and the conversion itself, and does not model the resolution field of the control register; masks and shifts on registers are written as arithmetic on their fields, and the F423 variant with 32 slots is not modelled.
- PwmCapture.Capture.Isr: the four-channel mode; which flags an interrupt finds is arbitrary. Two-channel mode, output and the configuration of a capture are not modelled.
