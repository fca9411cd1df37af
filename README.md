# rp2040_usb_screen in Dafny

A model of the firmware of an RP2040 USB screen, and of the host library that drives it. The properties of the model are proved.

The host compresses an RGB565 frame with lz4 and sends three transfers over USB (a vendor bulk endpoint or a CDC serial port):

1. a 16-byte begin packet: the `image_aa` marker and the frame's width, height, x and y;
2. the compressed payload;
3. the 8-byte `image_bb` marker.

On the device, a receive task on core 0 reads packets of at most 64 bytes. It classifies each packet by its first 8 bytes, read as a big-endian u64, and either:

- stores the header;
- appends payload, up to a cap;
- hands the frame to the render task on core 1, through a one-slot channel;
- reboots into the bootloader (`boot_usb`).

On ST7789 builds the render task decompresses the frame under a busy flag (`DISPLAY_LOCK`), which the receive task waits on. It then draws the frame with the ST7789 driver. ST7735 builds decompress on core 0 instead.

Around this sit the pieces the firmware draws with:

- the ST7735 driver: commands, address windows, buffered word writes, `init`, clipped image drawing;
- the ST7789 driver: its SPI interface (`send_u8` chunking per data format), its `DrawTarget` entry points, the row/block pixel batcher, and the drawing helpers of both panel set-ups;
- three copies of an RGB565 framebuffer `Canvas` that blits images with clipping;
- 2× magnification;
- the RGB565 helpers;
- the integer RGB888 ⇄ YUV 4:2:0 conversion.

## How the model is built

- **Modules.** There is one module per source component. `Bytes`, `Arith`, `Slices`, `Wrappers`, `Bus` and `Geometry` hold the shared vocabulary: big-endian and little-endian byte codecs, a recursive `Mul`, chunking and concatenation, `Option`, the hardware event trace, and embedded-graphics rectangles plus what a window fill paints on the panel.
- **Receiver.** The receive loop is specified by the function `Receiver.Step` (one iteration) and `Receiver.Run` (the loop). The class `Receiver.Receiver` holds the loop's locals, and its `OnPacket` and `Serve` are proved against those functions. Lengths under 8 bytes and short begin packets are modelled, not excluded: a serial begin packet of 8 to 15 bytes is a `Panic` outcome, and a raw read is padded with zeros to 64 bytes. The build is a `Config`: transport, panel, and lz4 decompression as a function parameter.
- **Pipeline.** The render-side hand-off is a class `Pipeline.Renderer` holding the slot, the busy flag, `frame_received` and a ghost event log. Each method is one stretch of a task between two points where the other core can observe it. A blocking wait becomes that method's precondition. `Valid()` states what holds of every log: a FIFO channel, the flag equal to its last write, and a monotone `frame_received`. On ST7789 builds every send follows a reading of the flag as clear, with no other send in between. The flag may be set again while the send waits for the slot, so the flag need not be clear when the frame enters the channel.
- **Drivers.** Both drivers append to a trace of hardware events.
  - ST7735: the methods of `St7735.ST7735` state the exact events they add. A controller model (`St7735.Run`) turns events into the commands the panel receives, with their parameter bytes.
  - ST7789: `St7789.ST7789` records the calls made to the driver primitives (`set_pixel`, `set_pixels`, `set_pixels_u8`), and `St7789.Painted` says which panel pixels those calls write. `St7789Interface.SpiInterface` records the DC pin and the SPI writes of `send_commands`, `send_data` and `send_u8`.
- **Array algorithms.** Algorithms over slices keep their arrays and loops, proved against a function of the input: `Canvas.Canvas.DrawImage`, `Resize.MagnifyRgb565`, `Yuv.RgbToYuv420p`, `Yuv.Yuv420pToRgb` and `Rgb565.Rgb565LeToBe`.
- **Integers.** u16 arithmetic wraps (`Bytes.Wrap16`), as in a release build. A `+` that overflows would panic in a debug build. A `width * height` in u32 wraps (`St7789.Area32`).
- **Code over specification.** Where the code and the written description of the system differ, the model follows the code:
  - the serial loop drops packets shorter than 8 bytes instead of treating them as payload;
  - an end marker with no begin marker before it still sends the pending buffer, with the previous header values (zero at first).

## Model

| member | source | states |
|---|---|---|
| Protocol.Classify | usb_screen/src/main.rs:238-273 | each u64 marker is exactly one of begin, end or reboot (the three constants), or else data |
| Protocol.MarkerOf | usb_screen/src/main.rs:235-236 | the marker is the value whose 8 big-endian bytes are bytes 0..8 of the packet |
| Protocol.ParseHeader | usb_screen/src/main.rs:239-242 | width, height, x and y are the big-endian u16 values at bytes 8..10, 10..12, 12..14 and 14..16 |
| Protocol.MarkersDistinct | usb_screen/src/main.rs:53-57 | the three marker constants are pairwise distinct |
| Protocol.ImageAaSpelling | usb_screen/src/main.rs:53 | IMAGE_AA is the big-endian reading of the ASCII bytes "image_aa", both ways |
| Protocol.ImageBbSpelling | usb_screen/src/main.rs:55 | IMAGE_BB is "image_bb" read big-endian, both ways |
| Protocol.BootUsbSpelling | usb_screen/src/main.rs:57 | BOOT_USB is "boot_usb" read big-endian, both ways |
| Receiver.View | usb_screen/src/main.rs:227-228 | the serial loop sees exactly the packet; the raw loop sees the packet followed by zeros up to 64 bytes (its buffer is a fresh `[0; 64]`, main.rs:386) |
| Receiver.StepKeepsBound | usb_screen/src/main.rs:270-272 | with packets of at most 64 bytes the pending buffer stays below 153600 + 64 bytes |
| Receiver.DroppedReads | usb_screen/src/main.rs:223-233 | a read error, and a serial packet shorter than 8 bytes, change no state and emit nothing |
| Receiver.StartResets | usb_screen/src/main.rs:238-243 | a begin marker stores the header parsed from the same packet and empties the buffer; a serial begin packet of 8 to 15 bytes panics (the fields assigned before the out-of-range read, for 10 to 15 bytes, are lost with the task) |
| Receiver.EndSends | usb_screen/src/main.rs:244-257 | on ST7789 builds an end marker sends (buffer, x, y, width, height) with the stored header, then empties the buffer and keeps the header, whatever came before |
| Receiver.EndDecompresses | usb_screen/src/main.rs:259-265 | on ST7735 builds the serial loop sends the decompressed image only on success and clears the buffer either way; the raw loop's `unwrap` panics on failure (main.rs:428-432) |
| Receiver.RebootIsTerminal | usb_screen/src/main.rs:266-267 | the reboot marker reboots whatever is buffered, sends nothing, changes no state |
| Receiver.DataAppends | usb_screen/src/main.rs:268-273 | any other packet is appended whole exactly when the buffer is shorter than 320*240*2; the header is kept |
| Receiver.RunSnoc | usb_screen/src/main.rs:222-277 | the loop over one more read is the loop so far followed by one iteration, unless it has halted |
| Receiver.RunPrefix | usb_screen/src/main.rs:222-277 | running a + b is running a, then b from where a left off, unless a halted |
| Receiver.RunHaltedStable | usb_screen/src/main.rs:266-267 | after a reboot or a panic, further reads change nothing |
| Receiver.DataRun | usb_screen/src/main.rs:268-273 | a run of accepted data packets appends their bytes in order and sends nothing |
| Receiver.DataPastCapDropped | usb_screen/src/main.rs:270-272 | once the buffer has reached the cap, every further data packet is dropped |
| Receiver.Receiver.constructor | usb_screen/src/main.rs:209-215 | the loop's locals start at zero with an empty buffer |
| Receiver.Receiver.OnPacket | usb_screen/src/main.rs:222-273 | one loop iteration updates the locals and returns the outcome exactly as `Step` does, keeping the buffer bound |
| Receiver.Receiver.Serve | usb_screen/src/main.rs:383-446 | the inner receive loop over a read sequence ends in the state and outcomes of `Run`, stopping at the first reboot or panic |
| Pipeline.Renderer.constructor | usb_screen/src/main.rs:565 | empty slot, flag clear, no frame received, empty log |
| Pipeline.Renderer.Poll | usb_screen/src/main.rs:247-254 | on ST7789 builds the polling loop ends only when the lock is free and the flag reads false; the reading is logged and nothing else changes |
| Pipeline.Renderer.Deliver | usb_screen/src/main.rs:255 | the send completes only into a free slot and, on ST7789 builds, only after a clear reading of the flag since the previous send; the frame is logged as sent and nothing else changes |
| Pipeline.SentAfterObserved | usb_screen/src/main.rs:246-255 | in every log the methods can produce on an ST7789 build, each send is preceded by a reading of the flag as false, with no send in between |
| Pipeline.SentAfterFlagSeenClear | usb_screen/src/main.rs:246-255 | the same, for the log of any valid renderer |
| Pipeline.SendWhileFlagSet | usb_screen/src/main.rs:246-255 | a run exists in which core 0 reads the flag as clear, core 1 then takes the lock and sets the flag, and the next send completes while the flag is set |
| Pipeline.Renderer.TryTake | usb_screen/src/main.rs:576-624 | before the first frame `try_receive` takes the slot's frame and sets `frame_received`, or else runs one idle round and leaves the flag false |
| Pipeline.Renderer.Take | usb_screen/src/main.rs:625-627 | once a frame has arrived, `receive().await` takes the slot's frame |
| Pipeline.Renderer.Lock | usb_screen/src/main.rs:629-630 | the flag is set before decompressing |
| Pipeline.Renderer.Decompress | usb_screen/src/main.rs:633-640 | a failed decompression clears the flag and returns to the top of the loop; a successful one keeps the lock |
| Pipeline.Renderer.DrawAndUnlock | usb_screen/src/main.rs:643-649 | the decompressed image is drawn with the frame's x, y, width and height, then the flag is cleared |
| Pipeline.Renderer.Release | usb_screen/src/main.rs:647-648 | the end of a locked stretch (a failed decompression at 634-635, or a drawn image) clears the flag and returns to the top of the loop; nothing else changes |
| Pipeline.Renderer.Display | usb_screen/src/main.rs:487-491 | an ST7735 build draws the frame's bytes as the receive task sent them |
| Pipeline.ReceivedsPrefix | usb_screen/src/main.rs:579 | the frames taken so far only grow, so `frame_received` never goes back to false |
| Pipeline.ChannelIsFifo | usb_screen/src/main.rs:41 | the render task receives a prefix of the sent frames, at most one behind, and exactly one behind when the slot is full |
| Host.BeginPacket | examples/src/usb_screen.rs:70-75 | the begin packet is exactly 16 bytes |
| Host.EndPacket | examples/src/usb_screen.rs:85 | the end packet is exactly 8 bytes |
| Host.BuildBegin | examples/src/usb_screen.rs:70-75 | the `[u8; 16]` filled by `copy_from_slice` is IMAGE_AA, width, height, x, y, each big-endian |
| Host.PerformedStopsAtFirstFailure | examples/src/usb_screen.rs:78-86 | the `?` chain performs operations until the first failure, which is the last one performed; all of them when all succeed |
| Host.PerformedIs | examples/src/usb_screen.rs:110-116 | conversely, the count performed is fixed by where the first failure is |
| Host.Performed | examples/src/usb_screen.rs:78-86 | the number of operations a `?` chain performs is between 1 and the chain's length (0 for an empty chain) |
| Host.Link.constructor | examples/src/usb_screen.rs:63 | a link with the given transfer outcomes and nothing issued yet |
| Host.Link.Do | examples/src/usb_screen.rs:78 | one transfer is issued and its outcome is the link's status for that position |
| Host.Link.SendFrame | examples/src/usb_screen.rs:78-86 | the begin packet, the payload and the end packet are issued in order (on the serial port each write followed by a flush, usb_screen.rs:110-115), up to the first failure; Ok exactly when all succeed |
| Host.Link.DrawRgb565 | examples/src/usb_screen.rs:63-87 | the compressed image is sent as one frame with the header (width, height, x, y) |
| Host.Link.ClearScreen | examples/src/usb_screen.rs:41-47 | a width×height image of the colour is drawn at (0, 0) |
| Host.FillImage | examples/src/usb_screen.rs:42-45 | the image has width·height pixels and every one is the colour |
| Host.ScreenPortsExact | examples/src/usb_screen.rs:27-37 | the filter keeps exactly the USB ports whose serial number starts with "USBSCR" |
| Host.ScreenPortsOrder | examples/src/usb_screen.rs:27-37 | the filter keeps enumeration order: filtering a + b is the filter of a followed by that of b |
| Host.FindUsbSerialDevice | examples/src/usb_screen.rs:24-39 | the loop returns the filtered port list |
| Host.OpenUsbScreen | examples/src/usb_screen.rs:12-22 | an error exactly when `list_devices` fails; otherwise None exactly when no device has a "USBSCR" serial, the first such device is the one opened, and the result is an error exactly when opening it fails |
| EndToEnd.BeginPacketRoundTrip | examples/src/usb_screen.rs:70-75 | on either endpoint the device classifies the host's begin packet as IMAGE_AA and parses back the same width, height, x and y (main.rs:239-242) |
| EndToEnd.EndPacketRecognised | examples/src/usb_screen.rs:85 | the host's end packet is classified as IMAGE_BB on either endpoint |
| EndToEnd.HostMarkersAreDeviceMarkers | examples/src/usb_screen.rs:66-68 | the host's three constants equal the device's (main.rs:53-57) |
| EndToEnd.FrameReads | examples/src/usb_screen.rs:78-85 | the device sees one read per packet: the begin packet, the payload chunks, the end packet |
| EndToEnd.BeginFromAnyState | examples/src/usb_screen.rs:78 | the begin packet, from any device state, stores the header and empties the buffer |
| EndToEnd.PayloadBuffered | examples/src/usb_screen.rs:84 | after the begin packet and accepted payload packets the device holds the header and exactly the payload |
| EndToEnd.FrameDeliveredSt7789 | examples/src/usb_screen.rs:78-85 | on ST7789 builds one host frame reaches the channel as exactly the payload with the host's header, and the device is left with an empty buffer |
| EndToEnd.FrameDeliveredSt7735 | examples/src/usb_screen.rs:78-85 | on ST7735 builds the device sends the decompressed payload with the host's header |
| EndToEnd.ShortLastPacketIgnored | usb_screen/src/main.rs:231-233 | on the serial port a last payload packet shorter than the 8-byte marker is skipped: the frame's run ends in the same state with the same outcomes as without it, one idle iteration longer, although the host wrote those bytes |
| EndToEnd.ShortLastPacketTruncatesSt7789 | usb_screen/src/main.rs:231-233 | on ST7789 serial builds such a frame reaches the channel shorter than the payload the host wrote, without the last packet's bytes |
| Rgb565.SwapPairs | usb_screen/src/rgb565.rs:2-9 | the swap keeps the length |
| Rgb565.SwapPairsInvolution | usb_screen/src/rgb565.rs:2-9 | swapping twice restores the buffer |
| Rgb565.SwapPairsChangesByteOrder | usb_screen/src/rgb565.rs:4-7 | every pair read big-endian after the swap is the value it held read little-endian |
| Rgb565.Rgb565LeToBe | usb_screen/src/rgb565.rs:2-9 | every complete pair is swapped in place; Ok exactly for an even length, an odd last byte being the `pix[1]` panic |
| Rgb565.RgbToRgb565 | usb_screen/src/rgb565.rs:12-14 | bits 11-15 are r>>3, bits 5-10 g>>2 and bits 0-4 b>>3 |
| Rgb565.PureBlue | usb_screen/src/rgb565.rs:13 | (0, 0, 255) packs to 0x001F |
| Rgb565.White | usb_screen/src/rgb565.rs:13 | (255, 255, 255) packs to 0xFFFF |
| Rgb565.PackingRecoversTopBits | usb_screen/src/rgb565.rs:13 | equal packed values have equal top bits in every channel |
| Rgb565.PackingIgnoresLowBits | usb_screen/src/rgb565.rs:13 | colours differing only in the dropped low bits pack to the same value |
| Yuv.ClampU8 | usb_screen/src/rgb2yuv.rs:8-16 | 255 above 255, 0 below 0, the identity on 0..255 |
| Yuv.ClampIsNearest | usb_screen/src/rgb2yuv.rs:8-16 | the clamped value is the byte nearest to the input |
| Yuv.ClampMonotone | usb_screen/src/rgb2yuv.rs:8-16 | clamping keeps order |
| Yuv.EncodedRanges | usb_screen/src/rgb2yuv.rs:34-36 | luma lies in 16..235 and chroma in 16..240 before clamping (`>>` is a floor shift of i32) |
| Yuv.BlackRoundTrip | usb_screen/src/rgb2yuv.rs:34-36 | black encodes to (16, 128, 128), which decodes to black (rgb2yuv.rs:87-89) |
| Yuv.WhiteRoundTrip | usb_screen/src/rgb2yuv.rs:34-36 | white encodes to (235, 128, 128), which decodes to white |
| Yuv.ChromaSourcesAt | usb_screen/src/rgb2yuv.rs:27-44 | chroma sample x of line pair y is taken from pixel (2x, 2y), the first of its pair on the even line |
| Yuv.ChromaSourcesBound | usb_screen/src/rgb2yuv.rs:27-44 | every sampled pixel lies on the lines already read |
| Yuv.Encoded | usb_screen/src/rgb2yuv.rs:20-22 | the planar image is w·h + 2·(w·h/4) bytes |
| Yuv.SourcesInImage | usb_screen/src/rgb2yuv.rs:20-44 | one chroma sample per 2×2 block, each from a pixel of the image |
| Yuv.EncodedIsPlanes | usb_screen/src/rgb2yuv.rs:20-22 | the Y plane holds the luma of every pixel in raster order, the U plane starts at w·h and the V plane at w·h + w·h/4 |
| Yuv.RgbToYuv420p | usb_screen/src/rgb2yuv.rs:18-68 | the destination's first w·h + 2·(w·h/4) bytes are the planar image and nothing past them is written |
| Yuv.EncodeLine | usb_screen/src/rgb2yuv.rs:25-66 | one line of the loop: an even line writes luma and one U/V sample per pixel pair, an odd line writes luma only |
| Yuv.EncodeEvenLine | usb_screen/src/rgb2yuv.rs:27-53 | an even line writes its width luma values and its width/2 chroma samples from the pair starts |
| Yuv.EncodePair | usb_screen/src/rgb2yuv.rs:29-52 | one pixel pair adds two luma values and the chroma of its first pixel |
| Yuv.EncodeOddLine | usb_screen/src/rgb2yuv.rs:54-66 | an odd line writes its width luma values and no chroma |
| Yuv.DecodeReadsFitLast | usb_screen/src/rgb2yuv.rs:79-81 | reading the last pixel's V sample in bounds makes every read in bounds |
| Yuv.DecodeReadBounds | usb_screen/src/rgb2yuv.rs:79-81 | the luma read `line*width + col` and the chroma read `(line/2)*(width/2) + col/2 + image_size` are in bounds |
| Yuv.Decoded | usb_screen/src/rgb2yuv.rs:75-97 | the decoded image is 3·w·h bytes |
| Yuv.DecodedAt | usb_screen/src/rgb2yuv.rs:75-97 | byte c of pixel (col, line) sits at 3·(line·w + col) + c, in raster order |
| Yuv.Yuv420pToRgb | usb_screen/src/rgb2yuv.rs:70-99 | the destination's first 3·w·h bytes are the decoded image and the rest are untouched |
| Yuv.RgbOf | usb_screen/src/rgb2yuv.rs:83-96 | a decoded pixel is three bytes r, g, b |
| Yuv.DecodeLine | usb_screen/src/rgb2yuv.rs:77-96 | one line of the loop appends that line's decoded row and writes nothing else |
| Yuv.WritePixel | usb_screen/src/rgb2yuv.rs:79-96 | one pixel writes its three decoded bytes at i and nothing else |
| Yuv.RowAt | usb_screen/src/rgb2yuv.rs:77-96 | byte 3·col + c of a decoded row is byte c of its pixel col |
| Yuv.EncodedFitsDecoder | usb_screen/src/rgb2yuv.rs:70-99 | the decoder reads within what the encoder writes for the same even size |
| Yuv.LumaOfEncoded | usb_screen/src/rgb2yuv.rs:79 | the luma the decoder reads is the luma the encoder computed for the same pixel |
| Yuv.ChromaOfEncoded | usb_screen/src/rgb2yuv.rs:80-81 | the chroma the decoder reads is that of the top-left pixel of the pixel's 2×2 block |
| Yuv.DecodeOfEncoded | usb_screen/src/rgb2yuv.rs:70-99 | decoding the encoded image gives each pixel the colour built from its own luma and its block's chroma |
| Resize.MagRows | usb_screen/src/resize.rs:19-34 | the magnified image of n rows is 4·n·w values |
| Resize.MagRowsAt | usb_screen/src/resize.rs:28-32 | both output rows of input row r hold each of its pixels twice |
| Resize.MagRowsPixel | usb_screen/src/resize.rs:19-34 | output pixel (i, j) of the 2w-wide image equals input pixel (i/2, j/2) |
| Resize.MagRowsBlock | usb_screen/src/resize.rs:28-32 | input pixel (x, y) lands on outputs (2y)·2w + 2x plus 0, 1, 2w and 2w + 1 |
| Resize.MagnifyRgb565 | usb_screen/src/resize.rs:19-34 | the first 4wh outputs are the magnified image; later outputs and the input are unchanged (needs output ≥ 4wh and input ≥ wh) |
| Resize.DoubledRow | usb_screen/src/resize.rs:26-32 | an output row of input row y is 2·width values |
| Resize.MagnifyRow | usb_screen/src/resize.rs:23-33 | one pass of the outer loop writes both output rows of input row y with its doubled row, and nothing before or after them |
| Resize.PutBlock | usb_screen/src/resize.rs:29-32 | the pixel is written to the four cells of its 2×2 block and no other cell changes |
| Resize.RowDone | usb_screen/src/resize.rs:23-33 | after row y the written prefix is the magnified image of rows 0..y+1 |
| Canvas.Reversed | usb_screen/src/canvas.rs:34 | the rows in the opposite order, as many of them |
| Canvas.Mirrored | usb_screen/src/canvas.rs:54-55 | every row reversed, as many rows |
| Canvas.Overwrite | usb_screen/src/canvas.rs:24 | overwriting a run keeps the buffer's length |
| Canvas.Painted | usb_screen/src/canvas.rs:14-29 | the copy loop over the rows keeps the buffer's length |
| Canvas.PaintedOutside | usb_screen/src/canvas.rs:16-24 | an index that no row's run covers keeps its value |
| Canvas.PaintedAt | usb_screen/src/canvas.rs:16-25 | with rows no wider than the stride, pixel j of row r lands at begin + r·stride + j when that index is in the buffer |
| Canvas.PlacedAt | usb_screen/src/canvas.rs:14-25 | pixel i of row r lands in canvas line y + r, column x + i |
| Canvas.DrawnPixel | usb_screen/src/canvas.rs:13-30 | image pixel (i, r) is canvas pixel (x + i, y + r) when that index is below `buf.len()` (same code in splash/canvas.rs:20-37) |
| Canvas.DrawnPixelSpills | usb_screen/src/canvas.rs:16-19 | no right-edge clip: a pixel past column `width` is written to the start of the next canvas line |
| Canvas.DrawnPixelFlipY | usb_screen/src/canvas.rs:32-49 | canvas line y + r holds image row n − 1 − r (same code in splash/canvas.rs:39-56) |
| Canvas.DrawnPixelFlipX | usb_screen/src/canvas.rs:51-70 | canvas column x + i of line y + r holds pixel w − 1 − i of image row r (same code in splash/canvas.rs:58-77) |
| Canvas.DrawnOutside | usb_screen/src/canvas.rs:16-24 | every index outside the written runs is unchanged |
| Canvas.StartPastEnd | usb_screen/src/canvas.rs:20-28 | a start index past `buf.len()` writes nothing |
| Canvas.Canvas.constructor | usb_screen/src/canvas.rs:2-6 | the canvas over a borrowed buffer, with its width and height |
| Canvas.Canvas.New | usb_screen/src/splash/canvas.rs:12-14 | a fresh zeroed buffer of 160·128 values, width 160, height 128 |
| Canvas.Canvas.Clear | usb_screen/src/canvas.rs:9-11 | every element becomes the colour (also splash/canvas.rs:16-18 and imageproc.rs:420-422) |
| Canvas.Canvas.DrawImage | usb_screen/src/canvas.rs:13-30 | the buffer becomes `Painted` of the image's rows from y·width + x with stride `width`, truncated at `buf.len()` (also splash/canvas.rs:20-37) |
| Canvas.Canvas.DrawImageFlipY | usb_screen/src/canvas.rs:32-49 | the same, over the rows in reverse order (also splash/canvas.rs:39-56) |
| Canvas.Canvas.DrawImageFlipX | usb_screen/src/canvas.rs:51-70 | the same, each row reversed (also splash/canvas.rs:58-77) |
| Canvas.Canvas.CopyRun | usb_screen/src/canvas.rs:24 | `copy_from_slice` overwrites exactly the run's indices |
| Canvas.Canvas.CopyRows | usb_screen/src/canvas.rs:14-29 | the row loop leaves the buffer equal to `Painted` of the rows, stopping at the first row that starts past the end |
| Canvas.Canvas.CopyAllRows | usb_screen/src/imageproc.rs:426-434 | the row loop without the early exit gives the same buffer |
| Canvas.Canvas.CopyOneRow | usb_screen/src/imageproc.rs:427-433 | one row's copy advances the loop by one row and one stride |
| Canvas.Canvas.DrawImageAt | usb_screen/src/imageproc.rs:424-435 | the same copy as `draw_image`, with no early exit; it needs every row's start within `buf.len()`, since `end - begin` would underflow otherwise |
| St7735.MadctlParam | usb_screen/src/st7735.rs:205-212 | with an RGB panel the MADCTL byte is the orientation's code |
| St7735.MadctlBits | usb_screen/src/st7735.rs:205-212 | bit 3 of the MADCTL byte is set exactly when the panel is BGR (`rgb == false`), and its other bits are the orientation's code |
| St7735.CommandSeen | usb_screen/src/st7735.rs:166-174 | whatever the bus held, `write_command` delivers the command with exactly its parameters, and leaves DC high exactly when there were parameters |
| St7735.WithParamsTwice | usb_screen/src/st7735.rs:180-182 | data written in two parts adds the same parameter bytes as written at once |
| St7735.RunAppend | usb_screen/src/st7735.rs:166-182 | the controller processes a trace a + b as a, then b |
| St7735.WritesSeen | usb_screen/src/st7735.rs:180-182 | in data mode, writes add their bytes as parameters of the last command |
| St7735.StreamSeen | usb_screen/src/st7735.rs:241-256 | a command followed by DC high and writes delivers that command with the written bytes |
| St7735.QuietSeen | usb_screen/src/st7735.rs:154-164 | reset pulses and delays send the controller nothing |
| St7735.BufferedShape | usb_screen/src/st7735.rs:189-203 | `write_words_buffered` makes only writes: every one but the last is exactly 32 bytes, the last is shorter (possibly empty), and together they carry exactly the bytes |
| St7735.BufferedSplit | usb_screen/src/st7735.rs:197-202 | a multiple of 32 bytes followed by a shorter rest gives the full blocks, then one write of the rest |
| St7735.WordWritesBytes | usb_screen/src/st7735.rs:241-247 | one write per word carries the words' big-endian bytes |
| St7735.WindowSeen | usb_screen/src/st7735.rs:221-230 | `set_address_window` delivers CASET with the words sx+dx and ex+dx, then RASET with sy+dy and ey+dy |
| St7735.PixelSeen | usb_screen/src/st7735.rs:233-238 | `set_pixel` delivers a one-pixel window, then RAMWR with the colour's two bytes |
| St7735.PixelsSeen | usb_screen/src/st7735.rs:259-281 | `set_pixels` and `set_pixels_buffered` deliver the same commands: the window, then RAMWR with the colours' big-endian bytes |
| St7735.InitPrefixAt | usb_screen/src/st7735.rs:124-149 | command k of `init` is entry k of its fixed table |
| St7735.InitOrder | usb_screen/src/st7735.rs:122-152 | `init` starts with SWRESET and SLPOUT, sends INVON exactly when inverted and INVOFF otherwise, sends MADCTL 0x00 for RGB and 0x08 for BGR, and sends COLMOD 0x05 before the final DISPON |
| St7735.InitSeen | usb_screen/src/st7735.rs:122-152 | whatever the bus held, `init` delivers exactly the 16 commands of the table |
| St7735.ResetSeen | usb_screen/src/st7735.rs:154-164 | the reset pulse sends the controller nothing |
| St7735.RowsShownFirst | usb_screen/src/st7735.rs:284-288 | rows are sent top-down until the first row whose line y + r is at or past `self.width` |
| St7735.LineWidth | usb_screen/src/st7735.rs:290-294 | a row is cut to `height - x` pixels exactly when it would cross the right edge, and never lengthened |
| St7735.ImageCommandsAt | usb_screen/src/st7735.rs:283-297 | row r of the image reaches the panel as window (x, y+r, x+line_width, y+r+1), then RAMWR with its first line_width colours |
| St7735.RowCommandsAre | usb_screen/src/st7735.rs:286-295 | the three commands of row r are CASET, RASET with the offset window words, then RAMWR with the row's first line_width colours |
| St7735.ImageSeen | usb_screen/src/st7735.rs:283-297 | the rows sent by `draw_image_at` deliver exactly `ImageCommands` |
| St7735.ClearCommandsAt | usb_screen/src/st7735.rs:299-304 | line l is cleared by window (0, l, width, l+1) holding `width` copies of the colour |
| St7735.ClearSeen | usb_screen/src/st7735.rs:299-304 | `clear_screen` delivers exactly one window and one RAMWR per line, top to bottom |
| St7735.ST7735.constructor | usb_screen/src/st7735.rs:97-119 | the driver keeps its configuration, offsets start at 0, and nothing has been sent |
| St7735.ST7735.HardReset | usb_screen/src/st7735.rs:154-164 | nothing without a reset pin; otherwise high, 10 ms, low, 10 ms, high |
| St7735.ST7735.WriteCommand | usb_screen/src/st7735.rs:166-174 | DC low and the command byte, then DC high and the parameters only if there are any |
| St7735.ST7735.StartData | usb_screen/src/st7735.rs:176-178 | DC goes high |
| St7735.ST7735.WriteData | usb_screen/src/st7735.rs:180-182 | one SPI write of the bytes |
| St7735.ST7735.WriteWord | usb_screen/src/st7735.rs:185-187 | one write of the word's big-endian bytes |
| St7735.ST7735.WriteWordsBuffered | usb_screen/src/st7735.rs:189-203 | the events are `Buffered` of the words' big-endian bytes (see `BufferedShape`) |
| St7735.ST7735.BufferWord | usb_screen/src/st7735.rs:193-200 | one pass of the loop buffers the word's two big-endian bytes and writes the 32 buffered bytes exactly when the buffer fills; flushed plus buffered bytes stay the bytes of the words so far |
| St7735.ST7735.SetOrientation | usb_screen/src/st7735.rs:205-212 | MADCTL with `MadctlParam` |
| St7735.ST7735.SetOffset | usb_screen/src/st7735.rs:215-218 | the offsets become dx and dy |
| St7735.ST7735.SetAddressWindow | usb_screen/src/st7735.rs:221-230 | the CASET/RASET events with offset coordinates (see `WindowSeen`) |
| St7735.ST7735.SetPixel | usb_screen/src/st7735.rs:233-238 | the events of a one-pixel window and its colour |
| St7735.ST7735.WritePixels | usb_screen/src/st7735.rs:241-247 | RAMWR, DC high, one write per colour |
| St7735.ST7735.WritePixelsBuffered | usb_screen/src/st7735.rs:249-256 | RAMWR, DC high, the colours through the 32-byte buffer |
| St7735.ST7735.SetPixels | usb_screen/src/st7735.rs:259-269 | the window, then `write_pixels` |
| St7735.ST7735.SetPixelsBuffered | usb_screen/src/st7735.rs:271-281 | the window, then `write_pixels_buffered` |
| St7735.ST7735.Init | usb_screen/src/st7735.rs:122-152 | the reset, then the 16 commands with their delays (see `InitSeen`, `InitOrder`) |
| St7735.ST7735.DrawImageAt | usb_screen/src/st7735.rs:283-297 | one `set_pixels_buffered` per shown row, in order (see `ImageCommandsAt`); it needs x ≤ `height` whenever some row is shown |
| St7735.ST7735.DrawRow | usb_screen/src/st7735.rs:286-295 | one pass of the row loop adds row r's events |
| St7735.ST7735.ClearScreen | usb_screen/src/st7735.rs:299-304 | one `set_pixels_buffered` per line 0..height, each with `width` copies of the colour |
| St7789Batch.RowsShaped | usb_screen/src/st7789/batch.rs:197-227 | every row has one y and 1 to 50 colours in consecutive columns: x_right = x_left + len − 1, wrapping |
| St7789Batch.RowsCover | usb_screen/src/st7789/batch.rs:169-231 | the rows paint exactly the input pixels, in order |
| St7789Batch.RowsKeepColors | usb_screen/src/st7789/batch.rs:169-231 | concatenating the rows' colours gives the input colours in order, nothing dropped or duplicated |
| St7789Batch.RowsHead | usb_screen/src/st7789/batch.rs:193-203 | the next row starts where the row being built does |
| St7789Batch.RowsMaximal | usb_screen/src/st7789/batch.rs:206-227 | a row ends only when the next pixel is not at x_right + 1 on the same y, or the row already holds 50 colours |
| St7789Batch.RowsEmpty | usb_screen/src/st7789/batch.rs:177-179 | no pixels exactly when no rows |
| St7789Batch.StartRowDots | usb_screen/src/st7789/batch.rs:197-204 | a row started from one pixel paints just that pixel |
| St7789Batch.ExtendDots | usb_screen/src/st7789/batch.rs:207-213 | extending a row with an adjacent pixel keeps it shaped and adds that pixel at the end |
| St7789Batch.RowWidth | usb_screen/src/st7789/batch.rs:207-213 | a shaped row spans as many columns as it has colours |
| St7789Batch.GrowDots | usb_screen/src/st7789/batch.rs:284-289 | a merged row is painted right below the block |
| St7789Batch.GrowShaped | usb_screen/src/st7789/batch.rs:284-289 | merging keeps the block's window exactly filled by its colours |
| St7789Batch.BlockOfDots | usb_screen/src/st7789/batch.rs:274-283 | a block started from a row paints what the row paints |
| St7789Batch.StepDots | usb_screen/src/st7789/batch.rs:264-306 | one step of the block loop loses and duplicates no pixel: pending plus row equals emitted plus the new pending block |
| St7789Batch.BlocksStep | usb_screen/src/st7789/batch.rs:264-306 | the blocks of the rows are what is emitted at the first row, then the blocks of the rest |
| St7789Batch.BlocksShaped | usb_screen/src/st7789/batch.rs:241-306 | every block's colours fill its window (x_left..x_right by y_top..y_bottom) exactly, with at most 100 colours |
| St7789Batch.BlocksCover | usb_screen/src/st7789/batch.rs:241-306 | the blocks paint exactly what the rows paint, in order |
| St7789Batch.BlocksKeepColors | usb_screen/src/st7789/batch.rs:264-306 | the blocks' colours concatenate to the rows' colours |
| St7789Batch.BlocksHead | usb_screen/src/st7789/batch.rs:274-283 | the next block starts with the block being built |
| St7789Batch.BlocksMaximal | usb_screen/src/st7789/batch.rs:284-289 | a block ends only when the next row is not at y_bottom + 1 with the same x_left and x_right, or would push it past 100 colours |
| St7789Batch.BlocksEmpty | usb_screen/src/st7789/batch.rs:249-251 | no rows exactly when no blocks |
| St7789Batch.BlocksNonEmpty | usb_screen/src/st7789/batch.rs:252-262 | a pending block is always emitted |
| St7789Batch.RowIterator.constructor | usb_screen/src/st7789/batch.rs:131-145 | `to_rows`: what remains is `Rows` of the pixels |
| St7789Batch.RowIterator.Next | usb_screen/src/st7789/batch.rs:169-233 | `next` returns the next row of what remains, or None when nothing remains |
| St7789Batch.BlockIterator.constructor | usb_screen/src/st7789/batch.rs:147-162 | `to_blocks`: what remains is `Blocks` of the remaining rows |
| St7789Batch.BlockIterator.Next | usb_screen/src/st7789/batch.rs:241-308 | `next` returns the next block of what remains, or None when nothing remains |
| St7789Batch.BatchCovers | usb_screen/src/st7789/batch.rs:27-54 | batching paints exactly the input pixels, in order, and keeps their colours |
| St7789.PixelCallsPaint | usb_screen/src/st7789/graphics.rs:43-51 | one `set_pixel` per pixel, in order, writes each pixel at its `as u16` coordinates |
| St7789.BlockCallsPaint | usb_screen/src/st7789/batch.rs:35-47 | one `set_pixels(x_left, y_top, x_right, y_bottom, colors)` per block writes what the blocks paint |
| St7789.BatchedLikeUnbatched | usb_screen/src/st7789/graphics.rs:38-62 | the batched and unbatched `draw_iter` write the same pixels, in the same order |
| St7789.ZeroAreaDrawsNothing | usb_screen/src/st7789/graphics.rs:68-111 | `fill_contiguous` makes no call exactly when the area has no bottom right; a zero area makes `fill_solid` call nothing too |
| St7789.ContiguousPaintsArea | usb_screen/src/st7789/graphics.rs:64-88 | for an area in u16 range, colour j·width + k is painted at (x + k, y + j) |
| St7789.AreaCallWindow | usb_screen/src/st7789/graphics.rs:80-84 | the window is top_left to bottom_right, inclusive |
| St7789.SolidStaysOnPanel | usb_screen/src/st7789/graphics.rs:91-111 | `fill_solid` makes at most one call, its window lies in the framebuffer's box, and it carries exactly one copy of the colour per window pixel |
| St7789.ClearFillsPanel | usb_screen/src/st7789/graphics.rs:114-127 | the window is (0,0,239,319) upright and (0,0,319,239) on its side, and every framebuffer pixel gets the colour |
| St7789.ST7789.FramebufferBoundingBox | usb_screen/src/st7789/graphics.rs:20-27 | at the origin, 240×320 for Portrait/PortraitSwapped, 320×240 for the Landscape variants |
| St7789.ST7789.constructor | usb_screen/src/st7789/graphics.rs:20-27 | a driver with its orientation and no calls yet |
| St7789.PixelCalls | usb_screen/src/st7789/graphics.rs:43-51 | one `set_pixel` call per pixel |
| St7789.BlockCalls | usb_screen/src/st7789/batch.rs:35-47 | one `set_pixels` call per block |
| St7789.ST7789.DrawIter | usb_screen/src/st7789/graphics.rs:38-52 | the calls made are `PixelCalls` of the pixels |
| St7789.ST7789.DrawBatch | usb_screen/src/st7789/batch.rs:27-54 | the calls made are one `set_pixels` per block of `Blocks(Rows(pixels))`, in iterator order |
| St7789.ST7789.TakeCounted | usb_screen/src/st7789/graphics.rs:69-77 | the take-while counter lets through exactly the first min(n, max) colours |
| St7789.ST7789.FillContiguous | usb_screen/src/st7789/graphics.rs:64-88 | the calls made are `ContiguousCalls`: at most width·height colours into the area's window |
| St7789.ST7789.FillSolid | usb_screen/src/st7789/graphics.rs:91-111 | the calls made are `SolidCalls`: the area clipped to the framebuffer, filled with the colour |
| St7789.ST7789.Clear | usb_screen/src/st7789/graphics.rs:114-127 | the calls made are `ClearCalls`: 240·320 copies of the colour into the whole panel |
| St7789Interface.ToLe | usb_screen/src/st7789/interface.rs:67 | on a little-endian target `to_le` keeps a word's in-memory bytes |
| St7789Interface.ToBe | usb_screen/src/st7789/interface.rs:74 | `to_be` puts the word's big-endian bytes in memory |
| St7789Interface.BeInMemory | usb_screen/src/st7789/interface.rs:71-77 | words converted with `to_be` and sent as a byte slice go out as their big-endian bytes |
| St7789Interface.LeUnchanged | usb_screen/src/st7789/interface.rs:64-70 | the `to_le` loop changes no word |
| St7789Interface.SendCarriesPayload | usb_screen/src/st7789/interface.rs:57-143 | for every format, `send_u8`'s writes carry exactly the format's payload in order: its bytes, or its words in the byte order it names (U16 native = little-endian) |
| St7789Interface.SendBufferSizes | usb_screen/src/st7789/interface.rs:78-140 | for U8Iter, U16LEIter and U16BEIter: no write exactly when nothing to send; every write but the last is a full buffer (32 bytes, 32 words, 64 words) and the last holds 1 to a full buffer |
| St7789Interface.RawPiecesWritten | usb_screen/src/st7789/interface.rs:78-97 | the 32-byte pieces together are the iterated bytes |
| St7789Interface.WordPiecesWritten | usb_screen/src/st7789/interface.rs:98-140 | the word pieces' byte slices together are the words' bytes |
| St7789Interface.ByteIterSizes | usb_screen/src/st7789/interface.rs:78-97 | the U8Iter writes are empty exactly for no bytes, and are full 32-byte pieces then one shorter one |
| St7789Interface.WordIterSizes | usb_screen/src/st7789/interface.rs:98-140 | the same for the word iterators, whose pieces are 2·size bytes |
| St7789Interface.SpiInterface.constructor | usb_screen/src/st7789/interface.rs:30-33 | nothing has been sent |
| St7789Interface.SpiInterface.SendCommands | usb_screen/src/st7789/interface.rs:40-46 | DC low, then exactly the writes of `send_u8`; U16LE/U16BE slices are converted in place first; false exactly for an unhandled format (`unimplemented!`) |
| St7789Interface.SpiInterface.SendData | usb_screen/src/st7789/interface.rs:48-54 | DC high, then the same writes |
| St7789Interface.SpiInterface.SendU8 | usb_screen/src/st7789/interface.rs:57-143 | the writes are `SendWrites` of the format; U16LE/U16BE slices end up holding the converted words; false exactly for an unhandled format |
| St7789Interface.SpiInterface.WriteBuffered | usb_screen/src/st7789/interface.rs:79-96 | the buffering loop writes the items in pieces of the buffer size, a full buffer each time it fills and the remainder only if non-empty |
| St7789Interface.SpiInterface.MapInPlace | usb_screen/src/st7789/interface.rs:66-68 | every element of the slice is replaced by its converted value |
| St7789Interface.DrawRgb565Le | usb_screen/src/st7789/interface.rs:145-148 | consecutive byte pairs read little-endian go to `set_pixels(x, y, width, height, …)`; an odd-length image is the `p[1]` panic and sends nothing here |
| St7789Interface.DrawRgb565U8 | usb_screen/src/st7789/interface.rs:150-152 | the image bytes go unchanged to `set_pixels_u8(x, y, width, height, …)` |
| St7789Interface.ClearRect | usb_screen/src/st7789/interface.rs:154-157 | exactly width·height copies of the colour go to `set_pixels(x, y, width, height, …)` |
| St7789Panel240.LastOf | usb_screen/src/st7789_240x240.rs:225 | `x + width - 1` in u16: the last column when the rectangle fits, the column before x when width is 0 |
| St7789Panel240.RectPaints | usb_screen/src/st7789_240x240.rs:223-231 | the window is (x, y, x+width−1, y+height−1), filled row by row: colour j·width + k lands at (x + k, y + j); with `Bytes.PairAt`, colour i is bytes 2i and 2i+1 in the named byte order |
| St7789Panel240.ClearRectFills | usb_screen/src/st7789_240x240.rs:233-236 | every pixel of a rectangle in u16 range gets the colour, one colour per pixel |
| St7789Panel240.ZeroWidthWraps | usb_screen/src/st7789_240x240.rs:235 | a width of 0 underflows and the window spans all 65536 columns |
| St7789Panel240.DrawRgb565Le | usb_screen/src/st7789_240x240.rs:223-226 | pairs read little-endian into the inclusive window; an odd length panics |
| St7789Panel240.DrawRgb565U8 | usb_screen/src/st7789_240x240.rs:228-231 | pairs read big-endian into the inclusive window; an odd length panics |
| St7789Panel240.ClearRect | usb_screen/src/st7789_240x240.rs:233-236 | width·height copies of the colour into the inclusive window |
| Geometry.BottomRight | usb_screen/src/st7789/graphics.rs:68 | none exactly for a zero-area rectangle; otherwise the rectangle's largest point |
| Geometry.IntersectContains | usb_screen/src/st7789/graphics.rs:92 | a point is in the intersection exactly when it is in both rectangles |
| Geometry.WindowDotAt | usb_screen/src/st7789/graphics.rs:80-84 | in a window w wide, colour j·w + k is painted at column sx + k of row sy + j |
| Geometry.IntersectSize | usb_screen/src/st7789/graphics.rs:92 | the intersection is no wider and no taller than either rectangle |
| Geometry.Width | usb_screen/src/st7789/graphics.rs:80-84 | an inclusive u16 column range spans 1 to 65536 columns |
| Geometry.WindowDotsLength | usb_screen/src/st7789/graphics.rs:80-84 | a window fill paints one pixel per colour |
| Bytes.BeValueOfBytes | examples/src/usb_screen.rs:71 | `to_be_bytes` then `from_be_bytes` gives the value back |
| Bytes.BeBytesOfValue | usb_screen/src/main.rs:236 | `from_be_bytes` then `to_be_bytes` gives the bytes back |
| Bytes.BeValueInjective | usb_screen/src/main.rs:235-236 | equal-length byte strings with the same big-endian value are equal |
| Bytes.U16FromBe | usb_screen/src/main.rs:239 | `u16::from_be_bytes([hi, lo])` has high byte hi and low byte lo |
| Bytes.U16FromLe | usb_screen/src/st7789/interface.rs:146 | `u16::from_le_bytes([lo, hi])` has high byte hi and low byte lo |
| Bytes.Wrap16 | usb_screen/src/st7735.rs:225-228 | u16 wrap-around: the identity in range, minus 65536 on one overflow, plus 65536 on one underflow |
| Bytes.U16BytesRoundTrip | usb_screen/src/main.rs:239 | u16 big-endian and little-endian bytes decode back to the value |
| Bytes.Swap16 | usb_screen/src/rgb565.rs:4-5 | the little-endian bytes of the swapped word are the big-endian bytes of the word |
| Bytes.Swap16Involution | usb_screen/src/rgb565.rs:4-5 | swapping a word's bytes twice restores it |
| Bytes.PairAt | usb_screen/src/st7789/interface.rs:146 | pair i of a byte image is bytes 2i and 2i+1, read little-endian (or big-endian) |
| Bytes.LePairsRoundTrip | usb_screen/src/st7789/interface.rs:146 | reading little-endian pairs inverts writing words little-endian, and conversely for an even-length image |
| Bytes.BePairsRoundTrip | usb_screen/src/st7789_240x240.rs:229 | the same for big-endian pairs |
| Bus.WrittenAppend | usb_screen/src/st7735.rs:180-182 | the bytes written by a + b are those of a followed by those of b |

## Left out

- SPI, DC-pin and USB errors are not modelled. Driver writes always succeed, so the `?` early returns of the drivers never fire. The host's failures are an input (`Host.Link.status`).
- `async` execution and the two cores are not modelled as threads. Timers and delays are events in the ST7735 trace or are dropped. The 1 ms polling loop and the blocking `send`/`receive` become preconditions of the `Pipeline.Renderer` methods.
- The idle animation of both render tasks is not modelled: the splash controller, the random curve and `clear_rect(…, 1, 1)`. A round of it is one `IdleRound` event.
- lz4 compression and decompression are function parameters.
- `rgb888_to_rgb565_be` of the host is a parameter.
- Host.Link.SendFrame: assumes each transfer arrives as whole packets, and that a serial `write` writes everything (the `usize` it returns is ignored, as the host does). End-to-end, the payload is assumed to be split into packets whose first 8 bytes are not a marker. On the serial port each is also assumed to be at least 8 bytes long, except in the short-last-packet lemmas below.
- EndToEnd.PayloadBuffered: on the serial port every payload packet is required to be at least 8 bytes long. `draw_rgb565_serial` writes an lz4 payload of any length, and when that length is 1 to 7 more than a multiple of 64 the last packet is shorter. The device skips it (main.rs:231-233), and `EndToEnd.ShortLastPacketIgnored` states what then happens.
- EndToEnd.FrameDeliveredSt7789: the same requirement on serial packets. With a short last packet the channel gets the payload without that packet's bytes (`EndToEnd.ShortLastPacketTruncatesSt7789`).
- EndToEnd.FrameDeliveredSt7735: the same requirement on serial packets. With a short last packet the device decompresses the truncated payload (`EndToEnd.ShortLastPacketIgnored`).
- Canvas.Canvas.CopyRows: `end as i32 - begin as i32` is computed over unbounded integers. The casts would truncate only offsets of 2^31 or more, far beyond a canvas buffer.
- `run_display_task`, `display_task` and the driver set-up of st7789_240x240.rs are not modelled (peripheral set-up). That file drives the st7789 crate's own driver. Its `send_u8` is the interface.rs code and is modelled once, by `St7789Interface.SpiInterface.SendU8`. Its drawing helpers are modelled over the same call sink, `St7789.ST7789`.
- The ST7789 driver's own `set_pixels`, `set_pixels_u8` and `init` are not part of this model. A call is recorded with its arguments. What a window fill paints (`Geometry.WindowDots`: row-major from the top-left corner, `ex - sx + 1` to a row) is the panel's documented memory-write order, assumed rather than derived.
- St7789Interface.DrawRgb565Le: states only the arguments passed to `set_pixels`, not what the panel shows. interface.rs passes `(x, y, width, height)` where graphics.rs and st7789_240x240.rs pass end corners, and which one the local driver expects cannot be decided without its `set_pixels`.
- St7789Interface.DrawRgb565U8: states only the arguments passed to `set_pixels_u8`, for the same reason.
- St7789Interface.ClearRect: states only the arguments passed to `set_pixels`, for the same reason.
- St7789Interface.DrawRgb565Le: on an odd-length image the device panics part-way through the transfer, because the colour iterator is lazy. The model reports the panic (`ok == false`) and records no call, so it does not capture the partial transfer.
- St7789Panel240.DrawRgb565Le: the same odd-length simplification.
- St7789Panel240.DrawRgb565U8: the same odd-length simplification.
- St7789.ST7789.TakeCounted: the u32 counter of the take-while would wrap after 2^32 colours. The model's counter does not wrap; colour sequences that long do not occur on the device.
- `OriginDimensions::size` (graphics.rs:131-139) is not modelled: the driver's `size_x`/`size_y` are set by code not shown.
- Embedded-graphics `Rectangle::bottom_right` and `intersection` are written from their documented meaning. Their i32 arithmetic is assumed not to overflow.
- `ST7735DisplayManager` and its `display_image_be` are not part of this model, and neither is the DMA code of st7735.rs it relies on. `Pipeline.Renderer.Display` records what it is asked to draw.
- Pipeline.Renderer.DrawAndUnlock records the `draw_rgb565_u8` call with its arguments. What the panel then shows is not modelled (see St7789Interface.DrawRgb565U8, which states only the arguments passed to `set_pixels_u8`).
- Canvas.Canvas.DrawImage: requires `image_width > 0` and an image length that is a multiple of it. Without this, `chunks(0)` panics or `row[0..len]` goes out of range.
- Canvas.Canvas.DrawImageFlipY: the same requirement.
- Canvas.Canvas.DrawImageFlipX: the same requirement.
- St7735.ST7735.DrawImageAt requires `width > 0` and, when some row is shown, `x <= height`. Without these, `chunks(0)` panics, or `self.height - x` underflows and panics.
- Canvas.Canvas.DrawImageAt requires every row's start to be at most `buf.len()`. Otherwise `end - begin` underflows and panics.
- Yuv.RgbToYuv420p requires even width and height. With an odd size the chroma writes run into the V plane and past it, so that case is not modelled.
- Yuv.Yuv420pToRgb requires that every read is within `yuv`, which the source does not check.
- Yuv.RgbToYuv420p requires `rgb` to hold at least 3·w·h bytes and `destination` at least w·h + 2·(w·h/4). The source does not check these lengths; a shorter slice panics at the first out-of-range index (rgb2yuv.rs:31-50), after the earlier writes, and that case is not modelled.
- Yuv.Yuv420pToRgb requires `destination` to hold at least 3·w·h bytes. The source does not check this; a shorter slice panics at the first out-of-range write (rgb2yuv.rs:91-95), and that case is not modelled.
- Resize.MagnifyRgb565 requires an input of at least w·h values and an output of at least 4·w·h. The source does not check these; a shorter slice panics at the first out-of-range index (resize.rs:28-32), and that case is not modelled.
- `yuv_420p_to_rgb565` (rgb2yuv.rs:101-129) is not modelled.
- `nearest_neighbor_interpolation` (resize.rs:1-17) uses floating point and is not modelled.
- u16 additions in the drivers (`sx + dx`, `x + line_width`, `y + y1`, `x + width - 1`) are modelled as wrapping, as in a release build. A debug build would panic on overflow instead.
- imageproc.rs and st7789_240x240.rs are not compiled into the firmware (main.rs:23-31 does not declare them), and the `rgb2yuv` module is commented out (main.rs:27). They are modelled as written.

