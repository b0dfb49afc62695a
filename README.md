# epd7in5bhd: a verified model of the 7.5" HD three-colour e-paper driver

This project models the Go package `devices/epd7in5bhd` of gink. The package
drives an 880 x 528 e-paper panel that has black, white and a highlight
colour (red or yellow). The model covers seven areas:

- **the command table** (`commands.go`) and its printable names
  (`command_string.go`);
- **the SPI/GPIO writers** of `hardware.go`:
  - `dataWriter` pulls chip select Low and data/command High, transfers at
    most `txLimit` bytes, then releases chip select;
  - `commandWriter` sends the opcode with data/command Low, then sends the
    parameters through the data path;
  - `batchedWriter` cuts the data into `txLimit`-sized chunks;
- **what the panel controller receives**. A trace of pin changes,
  transfers, busy reads and pauses is replayed into a list of signals:
  a command with its parameters, a reset-line level, or one idle
  signal per busy-wait. Every driver operation is proved to deliver exactly
  its command sequence;
- **the newer driver** (`display.go`): `Reset`, `Init`, `Render`,
  `RenderPaletted`, `RenderImages`, `Clear`, `Sleep` and the busy-wait,
  issued through `commandWriter` with `txLimit` 4096;
- **the older driver** (`epd7in5bhd.go`). It sends one byte per transfer
  and never checks a result. It is proved to deliver the same command
  sequences as the newer one, with three differences:
  - it settles 200 ms rather than 10 ms after a busy-wait;
  - its `turnOnDisplay` pauses 200 ms rather than 2 ms after
    `masterActivation` (epd7in5bhd.go:188 against display.go:188);
  - its `Render` reads the planes from byte readers, pads them with
    0xFF, and sends the red plane **complemented** (`^b`).
- **the pixel encoders**:
  - `convert` and the older `Convert` pack one plane;
  - `Encode` and `encodeExactColors` stream a black and a red plane
    byte by byte;
  - `exactColorIndex` hands the white, black and highlight roles to the
    entries of a three-colour palette;
- **the two-plane framebuffer** `Image` of `image.go`: `NewImage`,
  `SetColorIndex`, `Set`, `At`, `Reset`, `drawExactColors` and `Encode`.

The model has three layers:

- **The transport** is the class `Hardware.Hardware`. It holds a trace of
  events, a fault script (the pin changes and transfers that fail) and a
  busy script (the levels the busy line reads). Each writer is a method
  proved equal to a function on the transport's state (`DataWriteW`,
  `WriteCommandW`, `BatchedW`, `CommandWriteW`).
- **The drivers** are the classes `Display.Display` and `Legacy.Display`.
  Their methods are proved to run a script of steps. The lemmas then state
  what a script delivers to the panel.
- **The image algorithms** with loops are methods. `Raster.FillPlane`,
  `Encoding.EncodeStream` and the drawing loops of `Framebuffer.Image` are
  proved against functions on pixel streams. Bit-level lemmas state where
  each pixel ends up.

Two places where the code and the package's own documentation disagree;
the model follows the code:

- The doc comments of both `Render` functions say that bit 1 of the black
  plane is a black pixel. The code, its comments and its padding use 1 for
  white (display.go:254-256).
- Writing one command is not one continuous critical section.
  `writeCommand` and each data chunk take the hardware mutex separately.
  The model sequences them; concurrency is left out.

## Model

| member | source | states |
|---|---|---|
| `Commands.DeclaredValues` | devices/epd7in5bhd/commands.go:7-46 | the 38 declared constants take exactly the values of the increasing opcode list |
| `Commands.DeclaredListed` | devices/epd7in5bhd/commands.go:7-46 | every declared constant is a listed opcode |
| `Commands.ListedDeclared` | devices/epd7in5bhd/commands.go:7-46 | every listed opcode is the value of a declared constant |
| `Commands.OpcodesIncreasing` | devices/epd7in5bhd/commands.go:8-45 | the opcode values, sorted, are strictly increasing, so no two of them coincide |
| `Commands.DistinctOpcodes` | devices/epd7in5bhd/commands.go:17-18 | tempSensorWrite and tempSensorRead share 0x1A; the 38 names denote exactly 37 distinct opcodes |
| `CommandString.Decimal` | devices/epd7in5bhd/command_string.go:97 | FormatInt(n, 10) is a non-empty digit string with no leading zero unless n is 0 |
| `CommandString.DecimalRoundTrip` | devices/epd7in5bhd/command_string.go:97 | parsing the decimal text of n gives back n |
| `CommandString.Name` | devices/epd7in5bhd/command_string.go:93-98 | a mapped opcode prints as its table name; any other byte prints as "command(" + its decimal value (`CommandString.Decimal`, strconv.FormatInt base 10) + ")", a digit string that reads back as the byte |
| `CommandString.MapKeys` | devices/epd7in5bhd/command_string.go:53-91 | the name table has exactly the 37 opcode values as keys |
| `CommandString.KeyMembership` | devices/epd7in5bhd/command_string.go:53-91 | a value is a key of the name table exactly when it lies in one of the four opcode runs |
| `CommandString.OpcodeMembership` | devices/epd7in5bhd/command_string.go:7-49 | a byte is an opcode exactly when its value lies in one of the four opcode runs |
| `CommandString.NamedOpcodes` | devices/epd7in5bhd/command_string.go:7-49 | a byte has a table name if and only if it is one of the declared opcodes |
| `CommandString.NamesDistinct` | devices/epd7in5bhd/command_string.go:53-91 | no two opcodes share a table name |
| `CommandString.NamesEndInLetters` | devices/epd7in5bhd/command_string.go:53-91 | no table name is empty or ends in ')', so a table name never looks like a fallback name |
| `CommandString.FallbackInjective` | devices/epd7in5bhd/command_string.go:97 | two fallback names are equal only for equal numbers |
| `CommandString.NameInjective` | devices/epd7in5bhd/command_string.go:93-98 | String is injective on bytes: equal names mean equal opcodes |
| `CommandString.SampleNames` | devices/epd7in5bhd/command_string.go:60-90 | 0x12 prints as "displayRefresh" and 0x4F as "setRamYAddressCtr" |
| `CommandString.AliasName` | devices/epd7in5bhd/command_string.go:64 | both names of 0x1A print as "tempSensorWrite" |
| `CommandString.FallbackExamples` | devices/epd7in5bhd/command_string.go:97 | 0x00 prints as "command(0)" and 0xFF as "command(255)" |
| `Bytes.Div8` | devices/epd7in5bhd/image.go:71 | Go's x / 8 truncates toward zero: the quotient brackets x from below when x >= 0 and from above when x < 0 |
| `Bytes.Div8Nonneg` | devices/epd7in5bhd/display.go:314 | for a column that is not negative, Go's division is the Euclidean one |
| `Bytes.MaskDisjoint` | devices/epd7in5bhd/display.go:315 | byte(0x80 >> (uint32(x) % 8)) is never zero; two columns get the same mask exactly when they agree modulo 8, and disjoint masks otherwise |
| `Bytes.BitsStep` | devices/epd7in5bhd/display.go:345-349 | adding a pixel to a byte sets exactly that pixel's own bit, and only when the pixel is on |
| `Bytes.BitsOutside` | devices/epd7in5bhd/display.go:345-356 | a byte built from pixels of other columns has the bit of column x clear |
| `Bytes.BitsInside` | devices/epd7in5bhd/display.go:345-356 | in a window of at most 8 consecutive pixels, each pixel's bit reads back as that pixel |
| `Bytes.PackAt` | devices/epd7in5bhd/display.go:314-320 | bit j of packed byte i is stream pixel 8 * i + j |
| `Geometry.PlaneIndex` | devices/epd7in5bhd/display.go:307-315 | BufSize is 58080; pixel (x, y) is stream position 880 * y + x, which lies in byte x / 8 + 110 * y at column x % 8 |
| `Colors.SqDiff` | devices/epd7in5bhd/display.go:312 | the per-channel distance of Palette.Index is non-negative |
| `Colors.Distance` | devices/epd7in5bhd/display.go:312 | the palette distance is non-negative |
| `Colors.DistanceSymmetric` | devices/epd7in5bhd/image.go:178 | the palette distance is symmetric |
| `Colors.Index` | devices/epd7in5bhd/display.go:312 | Palette.Index returns a valid index of a non-empty palette, and 0 for an empty one |
| `Colors.IndexMinimal` | devices/epd7in5bhd/display.go:312 | the chosen entry is at minimal distance, and every earlier entry is strictly farther |
| `Colors.IndexUnique` | devices/epd7in5bhd/image.go:183 | the first index of minimal distance is the only answer Index can give |
| `Colors.IndexOfEntry` | devices/epd7in5bhd/image.go:183 | in a palette whose entries are pairwise distinguishable, looking up an entry finds its own index |
| `Colors.ColorIndexAt` | devices/epd7in5bhd/display.go:396-398 | a pixel index is a byte, and 0 outside the image's bounds |
| `Raster.StreamAt` | devices/epd7in5bhd/display.go:307-315 | pixel (x, y) is stream position 880 * y + x, at the same column modulo 8 |
| `Raster.PutBit` | devices/epd7in5bhd/display.go:316-320 | setting an on pixel's bit, or clearing an off pixel's bit, extends the byte by that pixel |
| `Raster.PlaneBit` | devices/epd7in5bhd/display.go:314-319 | in a fully packed plane, bit x % 8 of byte x / 8 + 110 * y is pixel (x, y) |
| `Raster.FilledStep` | devices/epd7in5bhd/display.go:316-320 | storing the extended byte keeps the plane filled one position further |
| `Raster.PutValue` | devices/epd7in5bhd/display.go:316-320 | setting or clearing (or, for the older Convert, leaving) pixel s's bit gives the byte that holds pixels up to s |
| `Raster.FillPlane` | devices/epd7in5bhd/display.go:301-324 | the pixel loop returns exactly the BufSize bytes of the densely packed pixel stream |
| `Raster.FillRow` | devices/epd7in5bhd/display.go:309-321 | one row of 880 pixels fills exactly 110 more bytes |
| `Raster.PutPixel` | devices/epd7in5bhd/display.go:310-320 | one pixel written keeps the buffer filled one position further |
| `Raster.PixelStep` | devices/epd7in5bhd/display.go:314-315 | pixel (x, y) lands in the byte being filled, under its own mask |
| `Encoding.Lookup` | devices/epd7in5bhd/display.go:342-343 | img.At of an in-bounds pixel of a well-formed image is its colour |
| `Encoding.IndexOfTwo` | devices/epd7in5bhd/display.go:302-312 | on a two-entry palette Index picks the second entry exactly when it is strictly nearer |
| `Encoding.Convert` | devices/epd7in5bhd/display.go:296-325 | convert returns the BufSize plane that packs, row-major and MSB first, the pixels whose palette index is nonzero |
| `Encoding.ConvertPixel` | devices/epd7in5bhd/display.go:306-320 | in convert's plane, an out-of-bounds pixel is white (set unless inverting); an in-bounds pixel is set when strictly nearer white (nearer black when inverting) |
| `Encoding.ShadeIsRolePair` | devices/epd7in5bhd/display.go:346-356 | with three distinct roles, the switch gives white the bits (1, 0), black (0, 0) and highlight (1, 1) |
| `Encoding.RedImpliesBlack` | devices/epd7in5bhd/display.go:346-356 | every pixel with a red bit also has a black-plane bit |
| `Encoding.ShadeBits` | devices/epd7in5bhd/display.go:345-356 | the switch extends the running byte by the current pixel |
| `Encoding.EmitSend` | devices/epd7in5bhd/display.go:357-361 | at an emitting column the running byte is written and restarted at 0, and every byte due is out |
| `Encoding.EmitKeep` | devices/epd7in5bhd/display.go:357-361 | at any other column nothing is written and the running byte grows by one pixel |
| `Encoding.EmittedCount` | devices/epd7in5bhd/display.go:337-363 | after y rows exactly 110 * y bytes have been written to each plane |
| `Encoding.BitsWithin` | devices/epd7in5bhd/display.go:346-356 | when every red pixel is a black-plane pixel, every red byte is a bit-subset of its black byte |
| `Encoding.WindowBit` | devices/epd7in5bhd/display.go:357-361 | each emitted byte holds each of its pixels at that pixel's own column bit |
| `Encoding.WindowsPacked` | devices/epd7in5bhd/display.go:357-361 | emitting after column 7 of each byte packs the stream densely, as convert does |
| `Encoding.PixelAt` | devices/epd7in5bhd/display.go:339-356 | pixel (x, y) is stream position 880 * y + x; its black and red bits are those the switch gives its index |
| `Encoding.Shade` | devices/epd7in5bhd/display.go:346-356 | the switch, tested in the order highlight, black, white, sets or clears the pixel's bit in both running bytes |
| `Encoding.EncodePixel` | devices/epd7in5bhd/display.go:339-361 | one pixel of the loop keeps both planes emitting correctly, one position further |
| `Encoding.EncodeRow` | devices/epd7in5bhd/display.go:339-362 | one row of 880 pixels keeps both planes emitting correctly |
| `Encoding.EncodeStream` | devices/epd7in5bhd/display.go:334-363 | the pixel loop writes exactly BufSize bytes to each plane: byte k holds the pixels since the previous byte |
| `Encoding.EncodeExactColors` | devices/epd7in5bhd/display.go:386-418 | a three-colour paletted image is encoded with the roles of exactColorIndex and the raw pixel indices |
| `Encoding.EncodeWith` | devices/epd7in5bhd/display.go:327-364 | Encode uses encodeExactColors for a three-entry paletted image, and otherwise the nearest of white, black and red |
| `Encoding.EncodeAsWritten` | devices/epd7in5bhd/display.go:357-361 | as written, a byte goes out after each pixel with x % 8 == 0 |
| `Encoding.Encode` | devices/epd7in5bhd/display.go:327-364 | with a byte going out after x % 8 == 7, both planes are the densely packed planes of the pixels' roles |
| `Encoding.RedWithinBlack` | devices/epd7in5bhd/display.go:346-356 | whichever column emits, every red byte is a bit-subset of its black byte |
| `Encoding.EncodePixelBits` | devices/epd7in5bhd/display.go:345-356 | pixel (x, y) of Encode's planes holds the black and red bits of its role at bit x % 8 of byte x / 8 + 110 * y |
| `Encoding.NearestWhite` | devices/epd7in5bhd/display.go:332-343 | white's nearest entry in Encode's palette is white itself |
| `Encoding.WhitePagePixel` | devices/epd7in5bhd/display.go:332-356 | every pixel of a white page is index 0 and has its black-plane bit set |
| `Encoding.WhitePageAsWritten` | devices/epd7in5bhd/display.go:357-361 | as written, the first black byte of a white page is 0x80; dense packing gives 0xFF |
| `Hardware.DataWriteW` | devices/epd7in5bhd/hardware.go:108-138 | a data write only extends the trace |
| `Hardware.WriteCommandW` | devices/epd7in5bhd/hardware.go:144-162 | an opcode write only extends the trace |
| `Hardware.BatchFrom` | devices/epd7in5bhd/hardware.go:186-196 | the batching loop only extends the trace |
| `Hardware.BatchedW` | devices/epd7in5bhd/hardware.go:184-198 | a batched write only extends the trace |
| `Hardware.CommandWriteW` | devices/epd7in5bhd/hardware.go:164-177 | a command write only extends the trace; its data goes through the batched writer as written (`n += sent`) |
| `Hardware.DataWriteCount` | devices/epd7in5bhd/hardware.go:111-137 | dataWriter returns (0, nil) for an empty payload and an error for txLimit <= 0 or a payload over txLimit; a reliable write returns min(len(p), txLimit); no error means len(p) |
| `Hardware.DataWritePins` | devices/epd7in5bhd/hardware.go:114-133 | chip select goes Low, then data/command High; the payload, capped at txLimit, is transferred only after both succeed and txLimit > 0; chip select is then released |
| `Hardware.DataWriteReliable` | devices/epd7in5bhd/hardware.go:134-137 | a reliable write within txLimit adds exactly CS Low, DC High, the transfer and CS High, and returns (len(p), nil) |
| `Hardware.ChunksTile` | devices/epd7in5bhd/hardware.go:186-191 | the slices p[i:min(i+b, len(p))] concatenate to p; each holds 1 to b bytes, and all but the last exactly b |
| `Hardware.DataWriteChunk` | devices/epd7in5bhd/hardware.go:128-137 | a chunk within txLimit is transferred whole or not at all, and never yields ErrShortWrite |
| `Hardware.ChunksFrom` | devices/epd7in5bhd/hardware.go:186-190 | the chunks from offset i are p[i:j], then the chunks from j |
| `Hardware.BatchFromChunks` | devices/epd7in5bhd/hardware.go:186-196 | from offset i, the loop transfers a prefix of the remaining chunks in order, and all of them when there is no error |
| `Hardware.BatchFromStops` | devices/epd7in5bhd/hardware.go:191-194 | a failing chunk ends the loop with that chunk's count plus sent, and its error |
| `Hardware.BatchFromNext` | devices/epd7in5bhd/hardware.go:191-195 | after a successful chunk the loop continues at the end of that chunk |
| `Hardware.BatchedChunks` | devices/epd7in5bhd/hardware.go:184-198 | batchedWriter transfers a prefix of the txLimit-sized chunks of p in order, and all of them when it reports no error |
| `Hardware.BatchFromSameWire` | devices/epd7in5bhd/hardware.go:193-195 | the count bookkeeping changes neither the transfers nor the error |
| `Hardware.BatchFromCountsAll` | devices/epd7in5bhd/hardware.go:185-197 | with the count accumulated, a successful loop reports every byte it was given |
| `Hardware.BatchFromCountsNothing` | devices/epd7in5bhd/hardware.go:195-197 | as written (n += sent), a successful loop reports sent unchanged |
| `Hardware.BatchedCount` | devices/epd7in5bhd/hardware.go:184-198 | the written and the intended counts make the same transfers and errors; on success the intended count is len(p) and the written one is 0 |
| `Hardware.BatchedCountExample` | devices/epd7in5bhd/hardware.go:195 | two bytes sent reliably in one batch are reported as (0, nil) as written, and as 2 as intended |
| `Hardware.CommandWriteCount` | devices/epd7in5bhd/hardware.go:164-177 | commandWriter returns (0, nil) for an empty payload without touching the pins; if the opcode fails it returns 1 and the error; (1, nil) for a bare opcode; otherwise 1 + the as-written data count and the data error, so a successful write with data reports 1 |
| `Hardware.WriteCommandTx` | devices/epd7in5bhd/hardware.go:158-160 | an opcode write transfers the opcode byte alone, or nothing |
| `Hardware.WriteCommandPins` | devices/epd7in5bhd/hardware.go:147-161 | data/command goes Low, then chip select Low; only then is the opcode transferred, and chip select is released; a reliable transport gives no error |
| `Hardware.BatchedTxSizes` | devices/epd7in5bhd/hardware.go:186-191 | every transfer on the data path carries 1 to txLimit bytes |
| `Hardware.Hardware.constructor` | devices/epd7in5bhd/hardware.go:79-94 | a hardware with the given transfer limit and an empty trace |
| `Hardware.Hardware.Out` | devices/epd7in5bhd/hardware.go:114 | a pin change is recorded, and fails or not as the fault script says |
| `Hardware.Hardware.Tx` | devices/epd7in5bhd/hardware.go:129 | a transfer is recorded, and fails or not as the fault script says |
| `Hardware.Hardware.Read` | devices/epd7in5bhd/display.go:178 | a busy read is recorded and answers the busy script's next level (High once the script is exhausted) |
| `Hardware.Hardware.Sleep` | devices/epd7in5bhd/display.go:179 | a pause is recorded |
| `Hardware.Hardware.DataWrite` | devices/epd7in5bhd/hardware.go:108-138 | dataWriter.Write, its deferred chip-select release included, in place |
| `Hardware.Hardware.WriteCommand` | devices/epd7in5bhd/hardware.go:144-162 | writeCommand, its deferred chip-select release included, in place |
| `Hardware.Hardware.BatchedWrite` | devices/epd7in5bhd/hardware.go:184-198 | the batching loop with the count accumulated, in place |
| `Hardware.Hardware.BatchedWriteAsWritten` | devices/epd7in5bhd/hardware.go:184-198 | the batching loop as written, in place |
| `Hardware.Hardware.CommandWrite` | devices/epd7in5bhd/hardware.go:164-177 | commandWriter.Write: the opcode, then the rest through the batched data path as written (`BatchedWriteAsWritten`), in place |
| `Protocol.DataWriteDecodes` | devices/epd7in5bhd/hardware.go:108-138 | a reliable data write within txLimit extends the latest command with its bytes and leaves both select lines High |
| `Protocol.WriteCommandDecodes` | devices/epd7in5bhd/hardware.go:144-162 | a reliable opcode write appends that command with no parameters yet |
| `Protocol.BatchFromDecodes` | devices/epd7in5bhd/hardware.go:184-198 | chunking is invisible to the panel: a reliable batched write extends the latest command with all remaining bytes, in order |
| `Protocol.CommandWriteDecodes` | devices/epd7in5bhd/hardware.go:164-177 | a reliable command write of [op] + data is received as exactly that command with exactly those parameters, and reports 1, the as-written count |
| `Protocol.WaitIdleW` | devices/epd7in5bhd/display.go:173-182 | the busy-wait only extends the trace and consumes no fault |
| `Protocol.WaitIdleDecodes` | devices/epd7in5bhd/display.go:178-181 | the panel sees the busy-wait as exactly one idle signal |
| `Protocol.WaitIdleQuiet` | devices/epd7in5bhd/display.go:178-181 | the busy-wait returns only after reading High, and its last act is the settling pause |
| `Display.Apply` | devices/epd7in5bhd/display.go:153-165 | a script step only extends the trace |
| `Display.Run` | devices/epd7in5bhd/display.go:193-229 | a script only extends the trace |
| `Display.ApplyDecodes` | devices/epd7in5bhd/display.go:153-182 | with no failure, one step delivers exactly its signal: a reset level, a command with exactly its parameters, or an idle signal |
| `Display.RunDecodes` | devices/epd7in5bhd/display.go:193-229 | with no failure, a script delivers its expected signals in order |
| `Display.Padded` | devices/epd7in5bhd/display.go:255-260 | the padded plane has BufSize bytes: the given bytes, then the pad value |
| `Display.InitReceived` | devices/epd7in5bhd/display.go:193-229 | Init delivers the reset pulse, then refresh, 0x46 and 0x47 with 0xF7, each followed by a busy-wait, then the configuration commands with their exact parameters, the waveform load, one idle, and the RAM address counters |
| `Display.InitSignals` | devices/epd7in5bhd/display.go:193-229 | Init's signals are those of its four parts in order |
| `Display.ResetSignals` | devices/epd7in5bhd/display.go:144-151 | Reset delivers the reset line High, Low, High |
| `Display.WakeSignals` | devices/epd7in5bhd/display.go:196-202 | the refresh and the two auto-writes each precede one idle signal |
| `Display.ConfigSignals` | devices/epd7in5bhd/display.go:204-221 | the configuration commands and parameters, in order |
| `Display.LoadSignals` | devices/epd7in5bhd/display.go:223-228 | the waveform load (0xB1), activation, one idle, then the RAM counters x = 0 and y = 0x2AF |
| `Display.TurnOnSignals` | devices/epd7in5bhd/display.go:184-190 | turnOnDisplay delivers 0x22 with 0xC7, then activation, then one idle |
| `Display.PlanesSignals` | devices/epd7in5bhd/display.go:252-261 | a render delivers the y address counter, the black plane under 0x24, the red plane under 0x26, then turnOnDisplay's signals |
| `Display.RenderReceived` | devices/epd7in5bhd/display.go:247-261 | with no failure, Render delivers both planes padded to BufSize, the black with 0xFF (white) and the red with 0x00 (not red) |
| `Display.ClearPlanes` | devices/epd7in5bhd/display.go:232-234 | Clear's planes are all 0xFF and all 0x00 |
| `Display.SleepReceived` | devices/epd7in5bhd/display.go:287-289 | Sleep delivers deepSleepMode with the single parameter 0x01 |
| `Display.Display.constructor` | devices/epd7in5bhd/display.go:130-139 | the driver New returns, with txLimit 4096 |
| `Display.Display.Reset` | devices/epd7in5bhd/display.go:144-151 | the reset pulse and its pauses |
| `Display.Display.SendCommand` | devices/epd7in5bhd/display.go:153-165 | one commandWriter write of [op] + data |
| `Display.Display.SendData` | devices/epd7in5bhd/display.go:167-171 | one write through the batched data path as written |
| `Display.Display.WaitUntilIdle` | devices/epd7in5bhd/display.go:173-182 | the busy-wait with a 10 ms settle |
| `Display.Display.TurnOnDisplay` | devices/epd7in5bhd/display.go:184-190 | runs turnOnDisplay's script |
| `Display.Display.Init` | devices/epd7in5bhd/display.go:193-229 | runs Init's script |
| `Display.Display.Wake` | devices/epd7in5bhd/display.go:196-202 | runs the first part of Init |
| `Display.Display.Configure` | devices/epd7in5bhd/display.go:204-221 | runs the second part of Init |
| `Display.Display.LoadWaveform` | devices/epd7in5bhd/display.go:222-228 | runs the last part of Init |
| `Display.Display.Render` | devices/epd7in5bhd/display.go:247-262 | runs the render script with the planes padded to BufSize |
| `Display.Display.RenderPaletted` | devices/epd7in5bhd/display.go:268-282 | runs the render script with the planes Encode produces as written: byte k of each plane is `Encoding.Windows(..., 0, BufSize)`, emitted after pixel 8k |
| `Display.Display.RenderImages` | devices/epd7in5bhd/display.go:421-427 | runs the render script with convert's black plane and its inverted red/yellow plane, unpadded |
| `Display.Display.Clear` | devices/epd7in5bhd/display.go:232-234 | runs the render script with a white black plane and an empty red plane |
| `Display.Display.Sleep` | devices/epd7in5bhd/display.go:287-289 | runs the sleep script |
| `Framebuffer.RGBAOf` | devices/epd7in5bhd/image.go:27-37 | Color.RGBA: each of White, Black and Highlight gives its default-palette entry (opaque white, black, red); any other value is transparent |
| `Framebuffer.ColorOf` | devices/epd7in5bhd/image.go:96-101 | Set's type switch: a native Color is kept; a foreign colour becomes the first default-palette entry of minimal distance |
| `Framebuffer.Model` | devices/epd7in5bhd/image.go:39-41 | the colour model always answers one of White, Black and Highlight |
| `Framebuffer.DefaultDistinguishable` | devices/epd7in5bhd/image.go:19 | the default palette's three colours are at positive distances |
| `Framebuffer.ModelKeepsRoles` | devices/epd7in5bhd/image.go:27-41 | converting the RGBA of White, Black or Highlight gives that colour back, and conversion is idempotent |
| `Framebuffer.WidthBytes` | devices/epd7in5bhd/image.go:44-47 | NewImage's row width is ceil(dx / 8) bytes |
| `Framebuffer.Blank` | devices/epd7in5bhd/image.go:48-51 | a new image has all-0xFF black bytes and all-0x00 highlight bytes |
| `Framebuffer.PaintPair` | devices/epd7in5bhd/image.go:76-86 | the switch of SetColorIndex writes the bit pair of the index into both bytes |
| `Framebuffer.Offset` | devices/epd7in5bhd/image.go:71 | the byte of a pixel with non-negative coordinates is not negative |
| `Framebuffer.SetIndex` | devices/epd7in5bhd/image.go:70-88 | setting a pixel keeps both plane lengths |
| `Framebuffer.PaintReadBack` | devices/epd7in5bhd/image.go:76-86 | painting index 0, 1 or 2 and reading the same bit gives that colour |
| `Framebuffer.PaintOther` | devices/epd7in5bhd/image.go:75-86 | painting one bit leaves every other column of the byte as it was |
| `Framebuffer.PaintWithin` | devices/epd7in5bhd/image.go:76-86 | painting keeps every highlight bit within the black bits |
| `Framebuffer.BlankIsWhite` | devices/epd7in5bhd/image.go:43-56 | a new image is consistent and reads White everywhere |
| `Framebuffer.SetIndexConsistent` | devices/epd7in5bhd/image.go:70-88 | SetColorIndex keeps every highlight bit within the black plane |
| `Framebuffer.SetIndexFrame` | devices/epd7in5bhd/image.go:70-88 | only the pixel's own bit of its own byte changes |
| `Framebuffer.SetIndexNoOp` | devices/epd7in5bhd/image.go:72-86 | an index other than 0, 1 and 2, or a byte past the plane, changes nothing |
| `Framebuffer.SetThenDecode` | devices/epd7in5bhd/image.go:124-139 | reading a pixel back with the stride it was written with gives the colour written |
| `Framebuffer.SetThenDecodeOther` | devices/epd7in5bhd/image.go:124-139 | writing a pixel leaves every pixel in another byte or column as it was |
| `Framebuffer.OffsetInside` | devices/epd7in5bhd/image.go:43-56 | every in-bounds pixel of an image at the origin has its byte inside NewImage's planes |
| `Framebuffer.ModelBlack` | devices/epd7in5bhd/image_test.go:28-31 | color.Black, a foreign colour, converts to the driver's Black |
| `Framebuffer.ScenarioBlack` | devices/epd7in5bhd/image_test.go:19-72 | on a blank 16 x 2 image, Black at (0, 0), (8, 0) and (0, 1) gives black bytes 0x7F, 0x7F, 0x7F, 0xFF |
| `Framebuffer.ScenarioHighlight` | devices/epd7in5bhd/image_test.go:19-72 | then Highlight at (7, 0), (15, 0) and (7, 1) gives highlight bytes 0x01, 0x01, 0x01, 0x00, with the black plane unchanged |
| `Framebuffer.AtAsWrittenMisreads` | devices/epd7in5bhd/image.go:128 | on a 16 x 200 image, a pixel set Black at (0, 1) reads White through the 110-byte stride of At as written, and Black through the image's own stride |
| `Framebuffer.Claim` | devices/epd7in5bhd/image.go:177-181 | the claiming loop picks one entry per colour |
| `Framebuffer.ExactColorIndex` | devices/epd7in5bhd/image.go:166-184 | exactColorIndex returns the palette positions of the claimed entries, all valid indices |
| `Framebuffer.ClaimTwo` | devices/epd7in5bhd/image.go:177-181 | of the last two entries, black claims the one nearer black (the first on a tie), and highlight the other |
| `Framebuffer.RemoveOfThree` | devices/epd7in5bhd/image.go:180 | removing a claimed entry leaves the other two, in order |
| `Framebuffer.ClaimFirst` | devices/epd7in5bhd/image.go:177-181 | white claims its nearest entry first; black and red claim from the two left |
| `Framebuffer.ClaimThree` | devices/epd7in5bhd/image.go:177-181 | the three claims are three distinct positions, and black's is no farther from black than highlight's |
| `Framebuffer.RolesPermutation` | devices/epd7in5bhd/image.go:166-184 | with three distinguishable entries, the roles are a permutation of 0, 1, 2; white is the entry nearest white, and black is no farther from black than highlight |
| `Framebuffer.DrawRow` | devices/epd7in5bhd/image.go:153-162 | drawing a row keeps both plane lengths |
| `Framebuffer.DrawRows` | devices/epd7in5bhd/image.go:152-163 | drawing rows keeps both plane lengths |
| `Framebuffer.DrawRowShows` | devices/epd7in5bhd/image.go:153-162 | after a row is drawn, each drawn pixel shows its index's role (or keeps its colour if the index has none); every other pixel is unchanged |
| `Framebuffer.DrawRowStepOther` | devices/epd7in5bhd/image.go:154-161 | drawing one pixel leaves every other pixel's colour alone |
| `Framebuffer.RowBytesDiffer` | devices/epd7in5bhd/image.go:71 | two different pixels within the row width lie in different bytes or different columns |
| `Framebuffer.DrawRowsShows` | devices/epd7in5bhd/image.go:150-164 | after drawExactColors, each pixel of the drawn area shows its index's role (or keeps its colour if the index has none); pixels outside the area are unchanged |
| `Framebuffer.DrawRowConsistent` | devices/epd7in5bhd/image.go:153-162 | drawing a row keeps highlight bits within the black plane |
| `Framebuffer.DrawRowsConsistent` | devices/epd7in5bhd/image.go:150-164 | drawing keeps highlight bits within the black plane |
| `Framebuffer.Image.constructor` | devices/epd7in5bhd/image.go:43-56 | NewImage: both planes ceil(dx / 8) * dy bytes, all white; the image starts valid, every highlight bit within the black plane |
| `Framebuffer.Image.SetColorIndex` | devices/epd7in5bhd/image.go:70-88 | writes the pixel's bit pair in place and keeps the image valid (highlight bits within the black plane) |
| `Framebuffer.Image.Set` | devices/epd7in5bhd/image.go:90-114 | converts a foreign colour to the nearest role, then writes as SetColorIndex does |
| `Framebuffer.Image.AtAsWritten` | devices/epd7in5bhd/image.go:124-139 | At as written, rows 110 bytes apart: White outside the bounds, always one of the three roles, and equal to `Framebuffer.Image.At` on an image 110 bytes wide (the panel width); `Framebuffer.AtAsWrittenMisreads` shows they differ on a narrower one |
| `Framebuffer.Image.At` | devices/epd7in5bhd/image.go:124-139 | White outside the bounds; always one of White, Black and Highlight |
| `Framebuffer.Image.Reset` | devices/epd7in5bhd/image.go:141-144 | fresh planes of the same lengths, all white |
| `Framebuffer.Image.DrawPixel` | devices/epd7in5bhd/image.go:154-161 | one pixel of drawExactColors, in place |
| `Framebuffer.Image.DrawRowPixels` | devices/epd7in5bhd/image.go:153-162 | the inner loop of drawExactColors, in place |
| `Framebuffer.Image.DrawRowsPixels` | devices/epd7in5bhd/image.go:152-163 | the outer loop of drawExactColors, in place |
| `Framebuffer.Image.DrawExactColors` | devices/epd7in5bhd/image.go:150-164 | drawExactColors with the roles of exactColorIndex, in place |
| `Framebuffer.Encode` | devices/epd7in5bhd/image.go:187-197 | a three-colour paletted image is drawn into a new image of its bounds; the planes written are the drawn planes, and every highlight bit is within the black plane |
| `Legacy.CommandThenData` | devices/epd7in5bhd/epd7in5bhd.go:158-168 | the opcode followed by one sendData per parameter is sendCommand(op, data...) |
| `Legacy.OpcodeDecodes` | devices/epd7in5bhd/epd7in5bhd.go:159-162 | with no failure, the opcode acts append the command with no parameters yet |
| `Legacy.DataDecodes` | devices/epd7in5bhd/epd7in5bhd.go:170-175 | with no failure, one sendData extends the latest command by one byte |
| `Legacy.ParamsDecode` | devices/epd7in5bhd/epd7in5bhd.go:163-167 | with no failure, bytes sent one by one extend the latest command with all of them, in order |
| `Legacy.SendDecodes` | devices/epd7in5bhd/epd7in5bhd.go:158-168 | with no failure, sendCommand(op, data...) delivers exactly the command op with the parameters data |
| `Legacy.ApplyDecodes` | devices/epd7in5bhd/epd7in5bhd.go:158-182 | with no failure, one step delivers exactly its signal |
| `Legacy.RunDecodes` | devices/epd7in5bhd/epd7in5bhd.go:193-229 | with no failure, a script delivers the same signals as from the newer driver |
| `Legacy.BlackBytes` | devices/epd7in5bhd/epd7in5bhd.go:265-273 | Render's black plane has BufSize bytes |
| `Legacy.RedBytes` | devices/epd7in5bhd/epd7in5bhd.go:275-283 | Render's red plane has BufSize bytes |
| `Legacy.Plane` | devices/epd7in5bhd/epd7in5bhd.go:266-283 | a plane read by Render has BufSize bytes |
| `Legacy.PlaneActsSend` | devices/epd7in5bhd/epd7in5bhd.go:266-283 | the plane loop sends the plane's bytes in order, one sendData each |
| `Legacy.BytesReader` | devices/epd7in5bhd/epd7in5bhd.go:257-262 | a bytes.Reader yields as many bytes as it holds |
| `Legacy.ReaderPlanes` | devices/epd7in5bhd/epd7in5bhd.go:256-285 | read from a byte slice, the black plane is the newer driver's padded plane, and the red plane is the bitwise complement of the slice padded with 0xFF |
| `Legacy.ClearPlanes` | devices/epd7in5bhd/epd7in5bhd.go:232-234 | Clear sends an all-white black plane and an all-zero red plane, like the newer driver |
| `Legacy.PlanesRun` | devices/epd7in5bhd/epd7in5bhd.go:263-284 | Render's sends, the plane loops and turnOnDisplay together run the render script |
| `Legacy.PlanesSignals` | devices/epd7in5bhd/epd7in5bhd.go:263-284 | a render delivers the y address counter, the two planes, then turnOnDisplay's signals |
| `Legacy.RenderReceived` | devices/epd7in5bhd/epd7in5bhd.go:256-285 | with no failure, Render delivers both planes as read, BufSize bytes each |
| `Legacy.Convert` | devices/epd7in5bhd/epd7in5bhd.go:295-310 | Convert returns the BufSize plane that packs the pixels whose index is 1 |
| `Legacy.PixelIndex` | devices/epd7in5bhd/epd7in5bhd.go:299-302 | the pixel Convert computes: 1 past the image's width or height; otherwise 1 exactly when the colour is strictly nearer white than black; 0 where Go panics |
| `Legacy.ConvertPixel` | devices/epd7in5bhd/epd7in5bhd.go:299-305 | a pixel beyond the image's width or height is set; any other pixel is set exactly when strictly nearer white than black |
| `Legacy.ConvertAgrees` | devices/epd7in5bhd/epd7in5bhd.go:295-310 | for an image at the origin, Convert packs the same plane as the newer convert without inverting |
| `Legacy.FullBuffer` | devices/epd7in5bhd/epd7in5bhd.go:237-243 | BufSize bytes, each val |
| `Legacy.Display.constructor` | devices/epd7in5bhd/epd7in5bhd.go:88 | the driver New returns |
| `Legacy.Display.Reset` | devices/epd7in5bhd/epd7in5bhd.go:149-156 | the same reset pulse as the newer driver |
| `Legacy.Display.SendCommand` | devices/epd7in5bhd/epd7in5bhd.go:158-168 | the opcode, then one sendData per parameter |
| `Legacy.Display.SendData` | devices/epd7in5bhd/epd7in5bhd.go:170-175 | CS Low, DC High, one byte, CS High |
| `Legacy.Display.WaitUntilIdle` | devices/epd7in5bhd/epd7in5bhd.go:177-182 | the busy-wait with a 200 ms settle |
| `Legacy.Display.TurnOnDisplay` | devices/epd7in5bhd/epd7in5bhd.go:184-190 | turnOnDisplay with a 200 ms pause |
| `Legacy.Display.Init` | devices/epd7in5bhd/epd7in5bhd.go:193-229 | runs the same Init script as the newer driver |
| `Legacy.Display.Wake` | devices/epd7in5bhd/epd7in5bhd.go:196-202 | the first part of Init |
| `Legacy.Display.Configure` | devices/epd7in5bhd/epd7in5bhd.go:204-221 | the second part of Init |
| `Legacy.Display.LoadWaveform` | devices/epd7in5bhd/epd7in5bhd.go:222-228 | the last part of Init |
| `Legacy.Display.Render` | devices/epd7in5bhd/epd7in5bhd.go:256-285 | a nil reader reads as an empty one; runs the render script with the read planes |
| `Legacy.Display.SendPlane` | devices/epd7in5bhd/epd7in5bhd.go:266-283 | one plane loop: BufSize reads, 0xFF on an error, each byte sent (complemented for red) |
| `Legacy.Display.Clear` | devices/epd7in5bhd/epd7in5bhd.go:232-234 | runs the render script with a white black plane and an empty red plane |
| `Legacy.Display.Sleep` | devices/epd7in5bhd/epd7in5bhd.go:290-292 | runs the sleep script |

## Left out

- The host, GPIO and SPI setup of both `New` functions and of `newHardware` (hardware.go:17-77) is left out. The transport is a parameter: a trace plus fault and busy scripts.
- The busy-wait ends once the busy script is exhausted, because an exhausted script reads High. A busy line that never releases would hang the Go code; that is not modelled.
- The hardware mutex and concurrent callers are left out. Operations are modelled as sequential.
- Time is left out. Pauses are recorded as events; the timing and logging defers are not modelled.
- Errors of `sendCommand` and `sendData` are only logged in Go. The model drops them and keeps the transport state.
- `io.Writer`, `io.ByteWriter` and `io.ByteReader` are modelled as sequences: written bytes become output sequences, and a reader is a sequence of read results.
- Encode's general path in image.go (`draw.Draw`) is left out. `Framebuffer.Encode` models only the three-colour paletted path.
- `Framebuffer.Encode`: a palette other than three entries, or a malformed paletted index, is not modelled. Go would take `draw.Draw` or panic.
- `Encoding.Lookup`, `Encoding.NearestClass`, `Encoding.ConvertIndex`, `Legacy.Colour` and `Legacy.PixelIndex`: a paletted pixel index with no palette entry makes Go panic in `At`, and so does an empty palette in the older `Convert`. The model reads such a pixel as index 0 instead. That is white for Encode, black for convert(…, false), white for convert(…, true), and black for the older Convert. In both converts the pixel's bit stays clear.
- Image.At as written addresses rows with 110 bytes; see Findings. The model keeps it as `Framebuffer.Image.AtAsWritten`, and `Framebuffer.Image.At` uses the image's own stride.
- The `Palette` field of `Image` is modelled as the fixed default palette, because nothing in the package replaces it.
- The `ColorModel` and `Bounds` accessors of `Image` are left out: they only return fields.
- The legacy driver has no transfer limit: it sends every byte in its own transfer.
- `Hardware.BatchFrom`, `Hardware.BatchedW`, `Hardware.Hardware.BatchedWrite` and `Hardware.Hardware.BatchedWriteAsWritten` require a positive batch size for a non-empty payload. In Go a batch size of 0 loops forever and a negative one panics on the slice. `New` always passes 4096, so neither happens in the package.
- `Display.Padded` and `Display.Display.Render` require each plane to hold at most BufSize (58080) bytes. A longer plane makes `bytes.Repeat` panic on a negative count in Go (display.go:255, 259); the model does not describe the panic.
- `Framebuffer.Decode`, `Framebuffer.Image.At` and `Framebuffer.Image.AtAsWritten` require an in-bounds pixel's byte to lie inside the planes. In Go such a read panics. This happens for `At` as written on any image narrower than 110 bytes, for example at (0, 1) of the 16 x 2 image of the package test, which reads byte 110 of a 4-byte plane (image.go:130). It also happens for `At` with the image's own stride when the rectangle does not start at the origin, for example (8, 0) of the rectangle (8, 0)-(16, 1).
- `Framebuffer.Image.constructor` requires a non-negative plane size. A negative size panics in NewImage (image.go:43-56).
- `Framebuffer.ExactColorIndex` and `Framebuffer.RolesOf` require a palette of at least three entries. A shorter palette panics in exactColorIndex (image.go:166-184).
- `Framebuffer.Image.SetColorIndex` and `Framebuffer.Image.Set` require the pixel's byte offset to be non-negative. In Go a negative offset panics on the slice index; the model does not describe the panic.
- `Hardware.Hardware.CommandWrite` and `Hardware.CommandWriteW` follow the code: the data count goes through the batched writer as written, so no corrected command writer is modelled. The corrected count is stated for the batched writer alone (`Hardware.BatchedCount`).
- The `_command_name` string and its slice boundaries are left out. `CommandString.CommandMap` holds each name directly.
- `DisplayBounds` (used by `drawExactColors`) is not part of this model. The drawing loops take the area's width and height as parameters.
- The programs under `cmd/` are not part of this model.

## Findings

| source | as written | input that shows it | evidently intended | confidence | as-written member | corrected member |
|---|---|---|---|---|---|---|
| devices/epd7in5bhd/hardware.go:195 | `n += sent` adds to the chunk count, so `sent` stays 0 and a successful batched write reports 0 bytes | a reliable write of [1, 2] with batch size 2 returns (0, nil) | `sent += n`, reporting len(p) on success | not executed | `Hardware.BatchedCountExample`; commandWriter inherits it, see `Protocol.CommandWriteDecodes` (a command with data reports 1) | `Hardware.BatchedCount` |
| devices/epd7in5bhd/image.go:128 | At addresses row y at y * DisplayWidthBytes (110) instead of the image's own row width | on a 16 x 200 image, Set(0, 1, Black) and then At(0, 1) reads White | `(x / 8) + y * i.rectWidthBytes`, the stride Set uses | not executed | `Framebuffer.AtAsWrittenMisreads` | `Framebuffer.SetThenDecode` |
| devices/epd7in5bhd/display.go:357-361 | a byte is written after the pixel with x % 8 == 0, so it holds that pixel and the seven pixels before it | a white page: the first black byte is 0x80 rather than 0xFF | write after x % 8 == 7, packing each byte's own eight pixels | not executed | `Encoding.WhitePageAsWritten` | `Encoding.WindowsPacked` |
