# Verified models of LightZone's native decoders and image kernels

This project models the parts of LightZone's native layer that carry real algorithms, and proves
what they are for. Each model does what the C and C++ code does, branch by branch; code that works
in place is modelled by classes, arrays and loops, and each of those methods is proved against a
function or predicate whose own properties are proved by lemmas.

* **Fuji compressed RAF** (`Fuji*.dfy`): the chunked bit reader, the adaptive Golomb codes, the
  even-leads-odd-trails schedule over 18 rolling line buffers, the tiling of strips into the raster.
  The main result is losslessness against an encoder that sees whole colour planes
  (`FujiImage.RasterLossless`), carried through to the imperative loader (`FujiLoad.LoadRaw`); every
  image has a file that the loader restores it from (`FujiFile.ImageHasFile`).
* **Lossless JPEG** (`DcrawBits.dfy`, `Ljpeg*.dfy`, `RawSlices.dfy`): byte unstuffing, canonical
  Huffman tables, differences, predictors and the two-row buffer (ITU-T T.81, sections C.2,
  F.1.2.3, H.1.2.1 and H.1.2.2), and the CR2 slice map. The main result is `LjpegLoad.LoadImage`,
  and `LjpegFile.ImageHasFile` shows that every image has a file to load.
* **SMaL** (`Smal*.dfy`): the adaptive range decoder. Its invariants hold for every stream; besides,
  an encoder with exact arithmetic is given, and the 16-bit decoder is proved to invert it
  (`SmalCoder.RoundTrip`, `SmalPixels.LoadV6`); `SmalFile.ImageHasFile` shows that every image up to
  838 million pixels has a file to load.
* **Kernels**: in-place demosaic (`Demosaic*.dfy`), output orientation (`PixelFlip.dfy`,
  `FlipTurns.dfy`), ring-buffer convolution (`Convolution*.dfy`), box sums and non-local means
  (`BoxSum.dfy`, `NonLocalMeans.dfy`, `NlmInfluence.dfy`), wavelet denoise (`Wavelet*.dfy`), TIFF
  tiles and planes (`Tiff*.dfy`).

Decoders that invert an encoder, and loops that follow a function, do not say what that function
computes. That is the subject of further modules, in terms of cells, pixels and bits:
`FujiPrediction.dfy`, `FujiLayout.dfy`, `LjpegPrediction.dfy`, `SmalTurns.dfy`, `SmalImage.dfy`,
`DemosaicEdges.dfy`, `FlipTurns.dfy`, `NlmInfluence.dfy`, `ConvolutionResponse.dfy` and
`WaveletResponse.dfy`.

`Bits.dfy` holds bit strings and the arithmetic they need. `dafny verify dfyconfig.toml` checks
everything.

What the code does, where that is not what one would expect:

* Past the end of a Fuji block the reader sees zero bits for ever, so `fuji_zerobits` ends exactly if
  there is a 1 bit ahead (`FujiReader.ZeroBitsEndsIff`); and a pass over a line of 2 to 8 samples
  never ends (`FujiSchedule.PassEndsIff`). Validated headers give 512 or 384 samples.
* A Fuji header whose rounded width is below the raw width is rejected only because an unsigned
  difference wraps around (`FujiTiling.OnlyWrapRejects`).
* In SMaL a code equal to the low end minus one is decoded as the last symbol
  (`SmalTable.BelowLow`), which takes C's division towards zero: rounded down, the search would run
  past the table (`SmalTable.FloorRunsPast`).
* `lossless_jpeg_load_raw` moves the samples of a raster 3984 wide two columns back, and on plain rows
  the column stays behind, so that without slices nothing is stored (`LjpegLoad.LandsExactly`).
* `box_sum` reads beyond the end of a raster that the window does not fit into (`BoxSum.BothExactly`).
* `hat_transform` reads outside its line where the line is shorter than twice the distance of the taps
  (`Wavelet.StaysExactly`); for `wavelet_denoise` that is any image below 32 by 32
  (`Wavelet.AllStayExactly`).
* Near the border of a tile the weights of non-local means are made from what earlier offsets have
  left in the buffer of square distances (`NonLocalMeans.UiAfter`).
* `tiffcp` starts plane `s` of an interleaved pixel at byte `s` when it writes separate tiles, and at
  sample `s` when it reads them; `TiffPlanes.RestoredExactly` gives the exact condition under which
  the two undo each other.
* The offset loop of non-local means ends early for a search radius above the width, but the offsets
  it skips have no pair inside the image (`NonLocalMeans.OffsetsEnd`).
* The unreduced column-0 predictions of lossless JPEG stay inside a 32-bit int for up to 65535 rows
  (`LjpegRow.PredictionsFit`).

## Model
| member | source | states |
|---|---|---|
| FujiReader.BitReader.FillBuffer | lightcrafts/coprocesses/dcraw/fuji_compressed.h:169-193 | A refill changes no bit still to be read, whatever number of bytes fread delivers; once the data has run out only zero bits follow. |
| FujiReader.BitReader.NextBit | lightcrafts/coprocesses/dcraw/fuji_compressed.h:345-352 | The next bit of the flat bit string; the position advances by one, across refills. |
| FujiReader.BitReader.ZeroBits | lightcrafts/coprocesses/dcraw/fuji_compressed.h:339-357 | With a 1 ahead: the number of zeros before it, and exactly those zeros and the 1 are consumed. |
| FujiReader.ZeroBitsEndsIff | lightcrafts/coprocesses/dcraw/fuji_compressed.h:339-357 | The loop comes to an end if and only if there is a 1 ahead: past the end of the data no number of turns finds one. |
| FujiReader.BitReader.ReadCode | lightcrafts/coprocesses/dcraw/fuji_compressed.h:359-387 | The next n bits of the flat string, most significant first, for any n and any refill sizes; exactly n bits are consumed. |
| FujiReader.AvailableWithin | lightcrafts/coprocesses/dcraw/fuji_compressed.h:201-203 | Inside the file the bytes a block can deliver are the ones between its offset and its size. |
| FujiCodec.InitQTable | lightcrafts/coprocesses/dcraw/fuji_compressed.h:110-146 | The quantiser table holds the class of every reachable difference and is written inside its 32768 bytes. |
| FujiCodec.Gradient | lightcrafts/coprocesses/dcraw/fuji_compressed.h:337-337 | The gradient lies between -40 and 40, so that its absolute value indexes the 41 contexts. |
| FujiCodec.PredictInRange | lightcrafts/coprocesses/dcraw/fuji_compressed.h:415-426 | From neighbours in range the prediction is a sample value; for even and for odd positions. |
| FujiPrediction.PredictOdd | lightcrafts/coprocesses/dcraw/fuji_compressed.h:493-496 | The prediction of an odd sample is the mean of its sides, rounded down, where the sample above is between its neighbours, and elsewhere that sample counts as much as both sides. |
| FujiPrediction.PredictEven | lightcrafts/coprocesses/dcraw/fuji_compressed.h:415-426 | The prediction of an even sample: the sample above twice, and two of its three neighbours once. |
| FujiPrediction.OddLevel | lightcrafts/coprocesses/dcraw/fuji_compressed.h:493-496 | Between its neighbours the line above does not matter, and equal sides are kept. |
| FujiPrediction.OddPeak | lightcrafts/coprocesses/dcraw/fuji_compressed.h:493-496 | At a peak or a dip equal sides are moved half way to it. |
| FujiPrediction.EvenIgnores | lightcrafts/coprocesses/dcraw/fuji_compressed.h:415-426 | The neighbour farther from the sample above than both others has no influence. |
| FujiPrediction.NeighboursAre | lightcrafts/coprocesses/dcraw/fuji_compressed.h:481-486 | The neighbours are those of the plane of the colour: the row above, the row above that, the row itself, and at the ends of a row the ends of the row before. |
| FujiCodec.ZigzagBijection | lightcrafts/coprocesses/dcraw/fuji_compressed.h:445-448 | Codes 0 to total_values-1 and residuals in [-total_values/2, total_values/2) correspond one to one. |
| FujiPrediction.ZigzagOrder | lightcrafts/coprocesses/dcraw/fuji_compressed.h:445-448 | Codes go up with the size of the residual, the negative one first. |
| FujiCodec.ResidualInverts | lightcrafts/coprocesses/dcraw/fuji_compressed.h:457-469 | The encoder's residual brings back the sample, and its code is in range. |
| FujiCodec.CodeIsSample | lightcrafts/coprocesses/dcraw/fuji_compressed.h:457-469 | On codes in range the stored sample is prediction plus or minus residual modulo total_values: different codes give different samples, and the final clamp never acts. |
| FujiPrediction.ReconstructIs | lightcrafts/coprocesses/dcraw/fuji_compressed.h:457-469 | For any code, in range or not: one turn around the number of values at most, and beyond that the end of the range. |
| FujiCodec.AdaptKeeps | lightcrafts/coprocesses/dcraw/fuji_compressed.h:450-456 | Every adaptation keeps 1 <= value2 <= 64 and value1 >= 0, and, with codes in range, value1 <= maxDiff + (value2-1)*total_values/2. |
| FujiPrediction.ContextSums | lightcrafts/coprocesses/dcraw/fuji_compressed.h:450-456 | Up to a count of 64 a context adds up the sizes of its residuals and counts them. |
| FujiPrediction.ContextHalves | lightcrafts/coprocesses/dcraw/fuji_compressed.h:451-455 | There sum and count are halved. |
| FujiPrediction.ContextCount | lightcrafts/coprocesses/dcraw/fuji_compressed.h:450-456 | From the start on the count is 1 more than the samples seen, and from the 64th on it goes round from 33 to 64 every 32 samples. |
| FujiPrediction.DepthNumbers | lightcrafts/coprocesses/dcraw/fuji_compressed.h:148-163 | The numbers of values, of code bits and of the first contexts follow from the depth. |
| FujiPrediction.QuantSteps | lightcrafts/coprocesses/dcraw/fuji_compressed.h:125-146 | The class of a change is the number of steps 1, 18, 67 and 276 that it reaches, with its sign. |
| FujiPrediction.SameContext | lightcrafts/coprocesses/dcraw/fuji_compressed.h:490-491 | Two samples share a context exactly if their two changes are of the same classes or of the opposite ones, and their tables are the same. |
| FujiCodec.CapNeverTruncates | lightcrafts/coprocesses/dcraw/fuji_compressed.h:389-396 | In a bounded context the result of bitDiff is the least k with value2*2^k >= value1: the cap of 13 is never felt. |
| FujiCodec.BitDiff | lightcrafts/coprocesses/dcraw/fuji_compressed.h:389-396 | The C loop computes the capped Golomb parameter. |
| FujiCodec.CodeRoundTrip | lightcrafts/coprocesses/dcraw/fuji_compressed.h:428-440 | Unary, Golomb and escape codes: decoding an encoded code gives it and leaves exactly what followed. |
| FujiPrediction.ShortCode | lightcrafts/coprocesses/dcraw/fuji_compressed.h:498-505 | On the wire a short code is its high part in unary and then the low bits. |
| FujiPrediction.EscapeCode | lightcrafts/coprocesses/dcraw/fuji_compressed.h:506-510 | An escape is that many zeros or more, a 1, and the code less 1. |
| FujiWindow.DecodeEvKeeps | lightcrafts/coprocesses/dcraw/fuji_compressed.h:398-471 | Any event on any stream leaves every cell in [0, q_point[4]] and every context usable; without an error also within the Golomb bound. |
| FujiPrediction.OddStored | lightcrafts/coprocesses/dcraw/fuji_compressed.h:473-541 | What an odd event stores, cell by cell: such a mean of five cells, plus or minus the residual by the direction of the first change that is not 0, modulo the number of values. |
| FujiPrediction.EvenStored | lightcrafts/coprocesses/dcraw/fuji_compressed.h:398-471 | The same for an even event and its four cells. |
| FujiPrediction.FillStored | lightcrafts/coprocesses/dcraw/fuji_compressed.h:543-559 | An interpolated sample is the even prediction itself. |
| FujiPrediction.ErrorIs | lightcrafts/coprocesses/dcraw/fuji_compressed.h:442-443 | An error is exactly a code that is not one of the values. |
| FujiPrediction.ContextsApart | lightcrafts/coprocesses/dcraw/fuji_compressed.h:398-541 | Even and odd samples have contexts of their own, and only the one chosen by the changes adapts, by the residual. |
| FujiWindow.EvRoundTrip | lightcrafts/coprocesses/dcraw/fuji_compressed.h:473-541 | One event: the bits the lockstep encoder emits for a sample decode to that sample and that window. |
| FujiWindow.RoundTrip | lightcrafts/coprocesses/dcraw/fuji_compressed.h:398-569 | Losslessness for every list of events and every state: the encoder's bits decode to the encoder's window, without error, and what followed them is left. |
| FujiWindow.BoundOverRuns | lightcrafts/coprocesses/dcraw/fuji_compressed.h:450-456 | Along a list of events without an error every context is within the Golomb bound before every event and after the last. |
| FujiStrip.StripStaysBounded | lightcrafts/coprocesses/dcraw/fuji_compressed.h:450-456 | The bound holds before every event of every group of a strip that is decoded without an error, across the turns between groups. |
| FujiStrip.ErrorFreeStrip | lightcrafts/coprocesses/dcraw/fuji_compressed.h:195-229 | From init_fuji_block on, therefore, an error-free strip never feels the cap of 13 in bitDiff. |
| FujiWindow.DecodeConcat | lightcrafts/coprocesses/dcraw/fuji_compressed.h:586-751 | Decoding along two lists of events one after the other is decoding along both. |
| FujiSchedule.Turn | lightcrafts/coprocesses/dcraw/fuji_compressed.h:597-613 | One turn of the pass loop: the odd sample has both its even neighbours (or padding to its right), and the loop makes progress. |
| FujiSchedule.PassEndsIff | lightcrafts/coprocesses/dcraw/fuji_compressed.h:597-613 | A pass ends if and only if the line has at most one sample or more than eight; otherwise the loop never ends. |
| FujiSchedule.PassWrites | lightcrafts/coprocesses/dcraw/fuji_compressed.h:764-780 | A pass writes each position of its two lines exactly once, and no other. |
| FujiSchedule.EachPositionOnce | lightcrafts/coprocesses/dcraw/fuji_compressed.h:753-906 | A block decoder writes each position of the twelve new lines exactly once and never the carried ones. |
| FujiLayout.PassOrder | lightcrafts/coprocesses/dcraw/fuji_compressed.h:586-751 | Pass k decodes raster row k of a Bayer group: red before green, green before blue. |
| FujiLayout.PassStarts | lightcrafts/coprocesses/dcraw/fuji_compressed.h:597-613 | Its first two events are at the start of these lines, in this order. |
| FujiLayout.PassTables | lightcrafts/coprocesses/dcraw/fuji_compressed.h:597-613 | Each event of a pass is a sample at a position of its own parity, with the contexts of table k % 3, or fills up an even one that is not coded. |
| FujiLayout.PassEndIs | lightcrafts/coprocesses/dcraw/fuji_compressed.h:616-620 | After a pass the green lines are extended, and the red ones after even passes, the blue ones after odd ones. |
| FujiPlanes.SameBits | lightcrafts/coprocesses/dcraw/fuji_compressed.h:586-751 | An encoder that sees whole colour planes and one that sees the rolling window emit the same bits, as long as the window shows what the planes show. |
| FujiRolling.EvenStep | lightcrafts/coprocesses/dcraw/fuji_compressed.h:398-426 | An even event sees the neighbours of the unbounded planes. |
| FujiRolling.OddStep | lightcrafts/coprocesses/dcraw/fuji_compressed.h:473-496 | So does an odd event, once both even neighbours are in place. |
| FujiRolling.ExtendDone | lightcrafts/coprocesses/dcraw/fuji_compressed.h:561-569 | The extension gives each line whose predecessor is finished its padding and changes no finished line. |
| FujiRolling.PassAgrees | lightcrafts/coprocesses/dcraw/fuji_compressed.h:764-803 | During a whole pass every read shows the final plane cell or its padding, and both lines end up complete. |
| FujiRolling.GroupAgrees | lightcrafts/coprocesses/dcraw/fuji_compressed.h:753-906 | The same for a whole group, for X-Trans and Bayer. |
| FujiStrip.RotateHolds | lightcrafts/coprocesses/dcraw/fuji_compressed.h:941-955 | Copying, clearing and padding the 18 lines between groups gives the window that the planes prescribe for the next group. |
| FujiStrip.GroupLossless | lightcrafts/coprocesses/dcraw/fuji_compressed.h:933-938 | One group: its bits decode to its rows, and the whole-plane encoder emits exactly these bits. |
| FujiStrip.StripLossless | lightcrafts/coprocesses/dcraw/fuji_compressed.h:908-956 | Losslessness of a strip of any number of groups and any even line width above 8, bit-exact in what is consumed. |
| FujiStrip.GroupsInRange | lightcrafts/coprocesses/dcraw/fuji_compressed.h:908-956 | Whatever the stream, every cell of every decoded group is in [0, q_point[4]]. |
| FujiRaster.IndexInLine | lightcrafts/coprocesses/dcraw/fuji_compressed.h:272-273 | Every line-buffer index that the X-Trans and Bayer copies read is below the line width. |
| FujiRaster.BayerOk | lightcrafts/coprocesses/dcraw/fuji_compressed.h:282-335 | For the four Bayer phases no two pixels share a cell and every pixel's cell is coded. |
| FujiRaster.XTransOk | lightcrafts/coprocesses/dcraw/fuji_compressed.h:231-280 | The same for the X-Trans pattern, whose cells are the coded ones. |
| FujiRaster.RasterPlanesOk | lightcrafts/coprocesses/dcraw/fuji_compressed.h:543-559 | Every raster strip has colour planes whose uncoded cells hold the interpolation. |
| FujiRaster.RasterPixel | lightcrafts/coprocesses/dcraw/fuji_compressed.h:231-335 | Each raster pixel is found in the plane cell that the copy loops read. |
| FujiLayout.PixelRow | lightcrafts/coprocesses/dcraw/fuji_compressed.h:231-335 | A pixel lies in the plane of its own colour: in the row of the raster if green, in half that row if not. |
| FujiLayout.PixelColumn | lightcrafts/coprocesses/dcraw/fuji_compressed.h:272-273 | Two columns share a sample position in a Bayer line; of three in an X-Trans line the second and the third do. |
| FujiLayout.CodedExactly | lightcrafts/coprocesses/dcraw/fuji_compressed.h:586-751 | Of an X-Trans group the samples in the stream are exactly those that belong to a pixel. |
| FujiImage.RasterLossless | lightcrafts/coprocesses/dcraw/fuji_compressed.h:908-956 | Losslessness for rasters: every strip comes back pixel for pixel, without error, and its stream is consumed to the bit. |
| FujiTiling.Sgetn | lightcrafts/coprocesses/dcraw/fuji_compressed.h:91-97 | The big-endian number of the bytes. |
| FujiTiling.ParseHeader | lightcrafts/coprocesses/dcraw/fuji_compressed.h:1018-1063 | The header is taken if and only if it passes the validation. |
| FujiLayout.HeaderExample | lightcrafts/coprocesses/dcraw/fuji_compressed.h:1018-1063 | Sixteen bytes of a header, and what they say: 4032 rows of 6024 pixels in eight blocks, 14 bits, X-Trans, 512 samples a line. |
| FujiTiling.ValidHeader | lightcrafts/coprocesses/dcraw/fuji_compressed.h:1041-1063 | A header that passes has strips that cover the width, none empty or wider than a block. |
| FujiTiling.OnlyWrapRejects | lightcrafts/coprocesses/dcraw/fuji_compressed.h:1053-1053 | A rounded width below the raw width is rejected by the wrap-around of this unsigned difference and by no other check: compared with sign it would pass. |
| FujiTiling.NarrowHeader | lightcrafts/coprocesses/dcraw/fuji_compressed.h:1041-1062 | There are such headers, with no other fault. |
| FujiTiling.WriteOnce | lightcrafts/coprocesses/dcraw/fuji_compressed.h:240-241 | No write leaves the raster, and no two writes hit the same pixel. |
| FujiTiling.EveryPixelWritten | lightcrafts/coprocesses/dcraw/fuji_compressed.h:240-279 | Every raster pixel is written. |
| FujiLayout.PixelInStrip | lightcrafts/coprocesses/dcraw/fuji_compressed.h:240-241 | Strips are 768 columns of the image, from left to right. |
| FujiBlock.Offsets | lightcrafts/coprocesses/dcraw/fuji_compressed.h:408-411 | The negative offsets into the flat allocation are the same and the neighbouring positions one and two buffers up. |
| FujiBlock.FujiBlock.constructor | lightcrafts/coprocesses/dcraw/fuji_compressed.h:195-229 | init_fuji_block sets up the initial window, contexts and reader. |
| FujiBlock.FujiBlock.SampleEven | lightcrafts/coprocesses/dcraw/fuji_compressed.h:398-471 | fuji_decode_sample_even, in place over the flat allocation, is the decoding event of the window. |
| FujiBlock.FujiBlock.SampleOdd | lightcrafts/coprocesses/dcraw/fuji_compressed.h:473-541 | fuji_decode_sample_odd likewise. |
| FujiBlock.FujiBlock.InterpolationEven | lightcrafts/coprocesses/dcraw/fuji_compressed.h:543-559 | fuji_decode_interpolation_even likewise. |
| FujiBlock.FujiBlock.ExtendGeneric | lightcrafts/coprocesses/dcraw/fuji_compressed.h:561-569 | fuji_extend_generic likewise. |
| FujiBlock.FujiBlock.DecodePass | lightcrafts/coprocesses/dcraw/fuji_compressed.h:764-780 | A pass loop carries out the events of the schedule. |
| FujiBlock.FujiBlock.DecodeBlock | lightcrafts/coprocesses/dcraw/fuji_compressed.h:586-906 | A whole block decoder carries out the events of a group and counts their errors. |
| FujiBlock.FujiBlock.CarryLines | lightcrafts/coprocesses/dcraw/fuji_compressed.h:942-943 | The six memcpy calls change only the six carried lines, to the lines of the table. |
| FujiBlock.FujiBlock.ClearForNext | lightcrafts/coprocesses/dcraw/fuji_compressed.h:950-955 | Clearing and padding turn the window into the rotated one. |
| FujiDecoder.CopyToRaster | lightcrafts/coprocesses/dcraw/fuji_compressed.h:231-335 | The raster afterwards: the group's pixels in the block's columns, nothing else touched. |
| FujiDecoder.DecodeStrip | lightcrafts/coprocesses/dcraw/fuji_compressed.h:908-961 | A strip is decoded group by group as the model says, and painted into its columns. |
| FujiLoad.ReadBlockSizes | lightcrafts/coprocesses/dcraw/fuji_compressed.h:985-1009 | The two loops over the blocks find every size in the table, and every offset as the sum of the sizes before it behind the padded table. |
| FujiLayout.FirstBlockIs | lightcrafts/coprocesses/dcraw/fuji_compressed.h:991-995 | The blocks begin at the first multiple of 16 bytes behind the size table. |
| FujiLoad.LoadBlock | lightcrafts/coprocesses/dcraw/fuji_compressed.h:908-972 | The block at its offset is decoded into its columns. |
| FujiLoad.LoadRaw | lightcrafts/coprocesses/dcraw/fuji_compressed.h:974-1016 | On a file that holds an image the raster becomes that image, and no block reports an error. |
| FujiFile.CodeWithinMaxBits | lightcrafts/coprocesses/dcraw/fuji_compressed.h:428-440 | No coded sample, with an escape or without, takes more than max_bits bits. |
| FujiFile.PassLength | lightcrafts/coprocesses/dcraw/fuji_compressed.h:764-780 | A pass is at most one event longer than the samples of its two lines. |
| FujiFile.StripLength | lightcrafts/coprocesses/dcraw/fuji_compressed.h:908-956 | The code of n groups takes at most 345072 bits a group. |
| FujiFile.ImageHasFile | lightcrafts/coprocesses/dcraw/fuji_compressed.h:974-1016 | For every accepted header, every proper filter array and every image in range there is a file that holds the image, for any data offset below 2 GB: what FujiLoad.LoadRaw asks for can always be met. |
| DcrawBits.UnstuffStuff | lightcrafts/coprocesses/dcraw/dcraw_lz.c:614-615 | Byte stuffing (section F.1.2.3 of ITU-T T.81) is undone, and what follows is read as if it stood alone. |
| LjpegPrediction.Markers | lightcrafts/coprocesses/dcraw/dcraw_lz.c:614-615 | Bytes below 0xff are delivered, 0xff before a zero byte as well, and 0xff before anything else ends the stream. |
| DcrawBits.PeekBits | lightcrafts/coprocesses/dcraw/dcraw_lz.c:619-619 | The two shifts give the next bits, filled up with zeros when the buffer holds fewer. |
| DcrawBits.BitBuf.Restart | lightcrafts/coprocesses/dcraw/dcraw_lz.c:611-612 | getbits(-1) makes the reader start afresh at the file position. |
| DcrawBits.BitBuf.Refill | lightcrafts/coprocesses/dcraw/dcraw_lz.c:614-618 | A refill changes no bit still to come, and ends with enough bits or at the end of the stream. |
| DcrawBits.BitBuf.GetBits | lightcrafts/coprocesses/dcraw/dcraw_lz.c:604-627 | The next bits as a number, exactly those consumed; too few are an error. |
| DcrawBits.BitBuf.GetHuff | lightcrafts/coprocesses/dcraw/dcraw_lz.c:604-630 | The table entry of the look-ahead, and its length consumed; a length beyond the stream is an error. |
| LjpegHuffman.CodeIsStart | lightcrafts/coprocesses/dcraw/dcraw_lz.c:669-673 | The canonical code of Figure C.2 of T.81, shifted to the look-ahead width, is the symbol's first place in the table. |
| LjpegHuffman.CodeBelow | lightcrafts/coprocesses/dcraw/dcraw_lz.c:669-673 | Under Kraft's inequality every code fits its length. |
| LjpegHuffman.LookAhead | lightcrafts/coprocesses/dcraw/dcraw_lz.c:619-622 | Whatever follows a code, the look-ahead falls into that symbol's part of the table, at the end of the stream too. |
| LjpegHuffman.PrefixFree | lightcrafts/coprocesses/dcraw/dcraw_lz.c:658-675 | The remaining bits determine the symbol. |
| LjpegHuffman.EntriesAt | lightcrafts/coprocesses/dcraw/dcraw_lz.c:669-673 | Every look-ahead value in a symbol's part holds its length and symbol. |
| LjpegPrediction.DocumentedCode | lightcrafts/coprocesses/dcraw/dcraw_lz.c:633-657 | The example in the comment: the lengths and the codes of its thirteen symbols, from the sixteen counts. |
| LjpegHuffman.MakeDecoder | lightcrafts/coprocesses/dcraw/dcraw_lz.c:658-675 | The table holds the entries of all symbols in order, then zeros; no write leaves it for any counts; the source pointer moves past the symbols. |
| LjpegDiff.BuiltTable | lightcrafts/coprocesses/dcraw/dcraw_lz.c:658-675 | With Kraft's inequality and leaves up to 16 that table is the decoding table of the canonical code. |
| LjpegDiff.LeafOfCode | lightcrafts/coprocesses/dcraw/dcraw_lz.c:893-893 | gethuff returns the symbol whose code begins the stream and consumes exactly the code. |
| LjpegDiff.DiffRoundTrip | lightcrafts/coprocesses/dcraw/dcraw_lz.c:889-900 | Every difference modulo 2^16 comes back, 32768 as -32768, and exactly its bits are consumed. |
| LjpegPrediction.ExtraBits | lightcrafts/coprocesses/dcraw/dcraw_lz.c:895-898 | The extra bits of a positive difference are its own, whose first is 1, and those of the negative one their complement (Table H.2 of T.81). |
| LjpegRow.RowRoundTrip | lightcrafts/coprocesses/dcraw/dcraw_lz.c:902-939 | A row comes back for any predictor and component count, and the column-0 predictions stay congruent to the samples above. |
| LjpegRow.ImageRoundTrip | lightcrafts/coprocesses/dcraw/dcraw_lz.c:902-939 | A whole image comes back, row after row, without error, and what followed its bits is left. |
| LjpegRow.PredictionsMove | lightcrafts/coprocesses/dcraw/dcraw_lz.c:923-923 | A row moves a column-0 prediction by -2^15 to 2^15-1, whatever the stream. |
| LjpegRow.PredictionsFit | lightcrafts/coprocesses/dcraw/dcraw_lz.c:907-923 | For images of up to 65535 rows the unreduced predictions never leave a 32-bit int, whatever the stream. |
| LjpegRow.MidpointsFit | lightcrafts/coprocesses/dcraw/dcraw_lz.c:908-908 | The first row starts within those limits. |
| LjpegPrediction.PredictorIsH1 | lightcrafts/coprocesses/dcraw/dcraw_lz.c:924-933 | The predictors are the columns of Table H.1 of T.81: left, above, above left, the plane through the three, and the half steps rounded down. |
| LjpegPrediction.ZeroDifference | lightcrafts/coprocesses/dcraw/dcraw_lz.c:922-933 | The encoder codes the difference 0 where the sample is as that table has it. |
| LjpegPrediction.Exchange | lightcrafts/coprocesses/dcraw/dcraw_lz.c:924-933 | Predictors 1 and 2, and 5 and 6, change places when left and above do; 4 and 7 stay. |
| LjpegPrediction.EdgeDifference | lightcrafts/coprocesses/dcraw/dcraw_lz.c:908-926 | In the first column the sample above is the prediction, or half the range on the first row, whose rest is predicted from the left. |
| LjpegPrediction.StoredIsH1 | lightcrafts/coprocesses/dcraw/dcraw_lz.c:922-935 | The decoder stores the value of the table plus the difference, cut to 16 bits. |
| LjpegPrediction.StoredFirst | lightcrafts/coprocesses/dcraw/dcraw_lz.c:923-923 | In the first column it stores the running prediction plus the difference, which the prediction takes over uncut. |
| LjpegPrediction.TooWide | lightcrafts/coprocesses/dcraw/dcraw_lz.c:934-934 | A sample counts as an error exactly if it has more bits than the frame says. |
| LjpegDecoder.Diff | lightcrafts/coprocesses/dcraw/dcraw_lz.c:889-900 | The method reads what the decoding function says. |
| LjpegDecoder.Jhead.Switch | lightcrafts/coprocesses/dcraw/dcraw_lz.c:924-933 | The eight branches of the switch compute the predictors of Table H.1 of T.81. |
| LjpegDecoder.Jhead.Prediction | lightcrafts/coprocesses/dcraw/dcraw_lz.c:922-933 | Column 0 takes the running prediction and moves it, the first row the sample to the left, all else the switch. |
| LjpegDecoder.Jhead.Sample | lightcrafts/coprocesses/dcraw/dcraw_lz.c:919-936 | One sample stored in the current half; the other half unchanged; an error counted if it has too many bits. |
| LjpegDecoder.Jhead.Row | lightcrafts/coprocesses/dcraw/dcraw_lz.c:902-939 | A row decodes to the model's row in one half of the buffer while the other keeps the row above; row 0 restarts predictions and reader. |
| RawSlices.SourceOfTarget | lightcrafts/coprocesses/dcraw/dcraw_lz.c:956-964 | The CR2 slice map is one to one. |
| RawSlices.TargetOfSource | lightcrafts/coprocesses/dcraw/dcraw_lz.c:956-964 | The CR2 slice map is onto the raster. |
| RawSlices.NextTarget | lightcrafts/coprocesses/dcraw/dcraw_lz.c:956-964 | From the upper left corner on the samples fill a slice row by row from left to right, and the slices one after the other. |
| LjpegLoad.CellsDiffer | lightcrafts/coprocesses/dcraw/dcraw_lz.c:956-967 | No two samples share a raster cell, in slices, on plain rows and in the shifted raster. |
| LjpegLoad.CellsCovered | lightcrafts/coprocesses/dcraw/dcraw_lz.c:956-967 | Every raster cell gets a sample; in the shifted raster every cell but the last two. |
| LjpegLoad.LandsExactly | lightcrafts/coprocesses/dcraw/dcraw_lz.c:965-967 | A sample is stored if and only if it is not one too many; with a raster width of 3984 and without slices no sample ever is, and in slices all are but those for the first two positions, for which those of the first two positions below the raster come in. |
| LjpegLoad.CellPlace | lightcrafts/coprocesses/dcraw/dcraw_lz.c:955-967 | On plain rows sample k is cell k; in slices it is the cell in that row and column, two back in the shifted raster. |
| LjpegLoad.Put | lightcrafts/coprocesses/dcraw/dcraw_lz.c:955-969 | Division and remainder, or stepping along the row, and the two columns back of a raster 3984 wide find the cell of the sample; a sample outside is dropped, nothing else is written. |
| LjpegLoad.CopyRow | lightcrafts/coprocesses/dcraw/dcraw_lz.c:954-970 | A decoded row is in its cells, through the curve, and no other cell is changed. |
| LjpegLoad.LoadRaw | lightcrafts/coprocesses/dcraw/dcraw_lz.c:941-973 | For an image of any size every decoded sample that has a cell is in it, and cells without a sample keep what they had. |
| LjpegLoad.HeldImage | lightcrafts/coprocesses/dcraw/dcraw_lz.c:902-939 | From a file that holds the stuffed stream of an image the decoder gets that image and no error. |
| LjpegLoad.LoadImage | lightcrafts/coprocesses/dcraw/dcraw_lz.c:941-973 | Encode, stuff, decode, unslice: every cell is the value of the curve for the sample encoded for it, every other cell is unchanged, no error. |
| LjpegFile.ImageHasCode | lightcrafts/coprocesses/dcraw/dcraw_lz.c:889-939 | Under codes with all seventeen difference categories every image can be encoded. |
| LjpegFile.ImageHasFile | lightcrafts/coprocesses/dcraw/dcraw_lz.c:902-939 | So there is a file that holds it, from any position on. |
| LjpegFile.FlatCodeFits | lightcrafts/coprocesses/dcraw/dcraw_lz.c:658-675 | There are such codes: seventeen symbols of five bits satisfy all that is asked of a code. |
| PixelFlip.CellBack | lightcrafts/coprocesses/dcraw/dcraw_lz.c:9453-9459 | Every written pixel comes from the stored image, and the inverse orientation leads back. |
| PixelFlip.IndexOnce | lightcrafts/coprocesses/dcraw/dcraw_lz.c:9453-9459 | For all eight orientations each stored pixel is written from exactly one place. |
| PixelFlip.FlipBack | lightcrafts/coprocesses/dcraw/dcraw_lz.c:9644-9655 | Writing the written image in the inverse orientation restores the stored one. |
| FlipTurns.Mirrors | lightcrafts/coprocesses/dcraw/dcraw_lz.c:9457-9457 | flip & 1 alone: left and right change places. |
| FlipTurns.Upends | lightcrafts/coprocesses/dcraw/dcraw_lz.c:9456-9456 | flip & 2 alone: top and bottom change places. |
| FlipTurns.Transposes | lightcrafts/coprocesses/dcraw/dcraw_lz.c:9455-9455 | flip & 4 alone: rows become columns. |
| FlipTurns.Stays | lightcrafts/coprocesses/dcraw/dcraw_lz.c:9453-9459 | flip == 0 leaves the image as it is. |
| FlipTurns.TurnByTurn | lightcrafts/coprocesses/dcraw/dcraw_lz.c:9453-9459 | Every orientation is its single turns one after the other: left for right, top for bottom, rows for columns. |
| PixelFlip.Walk | lightcrafts/coprocesses/dcraw/dcraw_lz.c:9644-9655 | The stepped offset always equals flip_index(row, col). |
| SmalTable.PartWide | lightcrafts/coprocesses/dcraw/dcraw_lz.c:2899-2902 | Each symbol's part of the interval is at least 2 wide: the width is never 0. |
| SmalTable.PartsTile | lightcrafts/coprocesses/dcraw/dcraw_lz.c:2900-2902 | The parts of the symbols tile the interval. |
| SmalTable.BinExact | lightcrafts/coprocesses/dcraw/dcraw_lz.c:2898-2899 | The search finds the symbol whose part the code lies in, both directions, despite the rounding. |
| SmalTable.BelowLow | lightcrafts/coprocesses/dcraw/dcraw_lz.c:2898-2899 | A code one below the low end of the interval is taken for the last symbol. |
| SmalTable.FloorRunsPast | lightcrafts/coprocesses/dcraw/dcraw_lz.c:2898-2899 | With the quotient rounded down it would have no symbol at all: every cumulative frequency, the last one included, is above the count. |
| SmalTable.AdaptMoves | lightcrafts/coprocesses/dcraw/dcraw_lz.c:2906-2917 | Adaptation moves one unit of frequency from the giving symbol to the decoded one, or changes nothing. |
| SmalTable.TotalIs | lightcrafts/coprocesses/dcraw/dcraw_lz.c:2912-2917 | The frequencies add up to the first cumulative one, so that the total is conserved. |
| SmalTable.AdaptKeeps | lightcrafts/coprocesses/dcraw/dcraw_lz.c:2906-2918 | After every symbol the table is strictly descending from 63 to 0 and its counters are in bounds. |
| SmalTurns.TurnPasses | lightcrafts/coprocesses/dcraw/dcraw_lz.c:2906-2911 | When the turn of the giving symbol is used up, it passes to the next symbol in the round, for a quarter of the frequency of that one. |
| SmalTurns.TurnIs | lightcrafts/coprocesses/dcraw/dcraw_lz.c:2906-2918 | Over any list of symbols the giving symbol has moved on as often as turns were used up, modulo the number of symbols. |
| SmalTurns.EverySymbolGives | lightcrafts/coprocesses/dcraw/dcraw_lz.c:2906-2918 | In a full round every symbol gives way. |
| SmalTurns.TurnLasts | lightcrafts/coprocesses/dcraw/dcraw_lz.c:2906-2911 | A turn lasts for a quarter of the frequency that its symbol had when it took over, or for one symbol if that is 0. |
| SmalTurns.FirstTables | lightcrafts/coprocesses/dcraw/dcraw_lz.c:2871-2877 | The first tables are as even as 63 allows, and the last symbol gives way first. |
| SmalTurns.LowIs | lightcrafts/coprocesses/dcraw/dcraw_lz.c:2900-2900 | The low end of a part: a quarter, rounded down, of the frequencies below times a sixteenth of the width. |
| SmalTurns.AboveHigh | lightcrafts/coprocesses/dcraw/dcraw_lz.c:2898-2899 | A code above the interval is taken for the first symbol. |
| SmalBits.PullStuffed | lightcrafts/coprocesses/dcraw/dcraw_lz.c:2886-2897 | Values stuffed with an extra bit after eight ones are read back, any number of bits at a time. |
| SmalImage.OneBit | lightcrafts/coprocesses/dcraw/dcraw_lz.c:2886-2897 | Bit by bit: a bit goes to the end of the value; the bit after the eighth one in a row is a carry, added to the value as it stands. |
| SmalImage.NeverNine | lightcrafts/coprocesses/dcraw/dcraw_lz.c:2886-2897 | A stuffed stream never has nine ones in a row. |
| SmalBits.PullEvent | lightcrafts/coprocesses/dcraw/dcraw_lz.c:2886-2897 | Within a step of up to eight bits at most one extra bit occurs; it is added where the value then ends. |
| SmalBits.TakenOutIs | lightcrafts/coprocesses/dcraw/dcraw_lz.c:2891-2894 | The masks and shifts on the 16-bit register take out the extra bit and add it at its place, modulo 2^16. |
| SmalCoder.NextOk | lightcrafts/coprocesses/dcraw/dcraw_lz.c:2898-2918 | No symbol breaks a table or lets the width leave [128, 255]. |
| SmalCoder.EncodeInside | lightcrafts/coprocesses/dcraw/dcraw_lz.c:2898-2905 | The final low end lies in the part of every coded symbol at every earlier step. |
| SmalCoder.OneSymbol | lightcrafts/coprocesses/dcraw/dcraw_lz.c:2885-2920 | A decoder inside the stream finds the coded symbol. |
| SmalCoder.RoundTrip | lightcrafts/coprocesses/dcraw/dcraw_lz.c:2869-2920 | For every symbol sequence the adaptive range coder with its extra bits decodes what was encoded. |
| SmalDecoder.Scan | lightcrafts/coprocesses/dcraw/dcraw_lz.c:2889-2890 | The scan finds the highest run of eight ones. |
| SmalDecoder.TakeBits | lightcrafts/coprocesses/dcraw/dcraw_lz.c:2886-2897 | For any stream carry stays in [-8, 0]; while the stream lasts the 16-bit register is the exact value modulo 2^16. |
| SmalDecoder.AdaptTable | lightcrafts/coprocesses/dcraw/dcraw_lz.c:2906-2918 | The adaptation in place, in bytes that never wrap, is the model's. |
| SmalSegment.Smal.constructor | lightcrafts/coprocesses/dcraw/dcraw_lz.c:2871-2881 | The initial tables and registers. |
| SmalSegment.Search | lightcrafts/coprocesses/dcraw/dcraw_lz.c:2899-2899 | The search ends inside the table. |
| SmalSegment.Renormalise | lightcrafts/coprocesses/dcraw/dcraw_lz.c:2903-2903 | The renormalising loop ends with the width in [128, 255]. |
| SmalSegment.Smal.Narrow | lightcrafts/coprocesses/dcraw/dcraw_lz.c:2900-2918 | Interval and table in place, modulo 2^16, follow the exact model; valid for any stream. |
| SmalSegment.Smal.Symbol | lightcrafts/coprocesses/dcraw/dcraw_lz.c:2885-2920 | One turn of the symbol loop is a step of the exact coder; the invariants hold for any stream. |
| SmalPixels.DiffBack | lightcrafts/coprocesses/dcraw/dcraw_lz.c:2921-2923 | Every byte difference has symbols that decode to it. |
| SmalPixels.SymsBack | lightcrafts/coprocesses/dcraw/dcraw_lz.c:2921-2923 | And different symbols give different differences. |
| SmalTurns.DiffBits | lightcrafts/coprocesses/dcraw/dcraw_lz.c:2921-2923 | The magnitude of a difference is two bits of the third symbol, the second, and two bits of the first, whose third bit is the sign; minus 0 is -128. |
| SmalPixels.PixelsBack | lightcrafts/coprocesses/dcraw/dcraw_lz.c:2921-2927 | The writer's symbols make the image at every visited pixel, and holes keep what they had. |
| SmalImage.PixelIs | lightcrafts/coprocesses/dcraw/dcraw_lz.c:2926-2926 | Without holes every pixel is the one two before it plus the difference that its own three symbols make, in a byte. |
| SmalImage.HolePattern | lightcrafts/coprocesses/dcraw/dcraw_lz.c:2927-2927 | In a row with holes the first and the last of four pixels are stored. |
| SmalImage.HoleRows | lightcrafts/coprocesses/dcraw/dcraw_lz.c:2866-2866 | Rows have holes by the bits of the mask, every eighth row by the same one, counted from the end of the raster. |
| DcrawBits.BitBuf.Position | lightcrafts/coprocesses/dcraw/dcraw_lz.c:614-618 | While less than a byte is buffered the file position follows from the number of bits left. |
| SmalPixels.NothingTrimmed | lightcrafts/coprocesses/dcraw/dcraw_lz.c:2924-2925 | In a segment without an end in the file every difference counts. |
| SmalPixels.Segment | lightcrafts/coprocesses/dcraw/dcraw_lz.c:2869-2930 | The pixel loop stays valid for any stream, and makes the raster that the decoded symbols say, with differences near the end of the segment dropped. |
| SmalPixels.LoadV6 | lightcrafts/coprocesses/dcraw/dcraw_lz.c:2932-2942 | A file that holds a coded image, behind the offset that two of its bytes give in either order, gives that image, every pixel. |
| SmalFile.StuffedLength | lightcrafts/coprocesses/dcraw/dcraw_lz.c:2886-2897 | Stuffing adds at most one bit for every eight. |
| SmalFile.EncodedLength | lightcrafts/coprocesses/dcraw/dcraw_lz.c:2869-2920 | A symbol takes at most six bits of the value, whatever the tables have adapted to. |
| SmalFile.ImageHasFile | lightcrafts/coprocesses/dcraw/dcraw_lz.c:2932-2942 | Every image of up to 838 million pixels has a file that holds it, in either byte order and wherever behind its header the code begins: what SmalPixels.LoadV6 asks for can be met. |
| Demosaic.GreenReads | lightcrafts/jnisrc/dcraw/dcrawUtils.cpp:95-113 | What the green pass reads it never writes. |
| Demosaic.GreenRow | lightcrafts/jnisrc/dcraw/dcrawUtils.cpp:94-141 | The sliding registers always equal direct reads, and one row is the out-of-place function. |
| Demosaic.InterpolateGreenChannel | lightcrafts/jnisrc/dcraw/dcrawUtils.cpp:90-142 | For any order of the rows the buffer becomes a function of what it was; observed samples are unchanged. |
| DemosaicEdges.GreenIs | lightcrafts/jnisrc/dcraw/dcrawUtils.cpp:106-134 | Two neighbours of the axis with the smaller change, or all four, and a quarter or an eighth of how far the colour is from its own mean, as long as green and colour are within a factor of four. |
| DemosaicEdges.AlongEdge | lightcrafts/jnisrc/dcraw/dcrawUtils.cpp:122-134 | Where only the greens of one axis differ, the green of the other axis is kept. |
| DemosaicEdges.OneAxis | lightcrafts/jnisrc/dcraw/dcrawUtils.cpp:122-130 | The axis with the larger change has no influence beyond that. |
| DemosaicEdges.FlatGreen | lightcrafts/jnisrc/dcraw/dcrawUtils.cpp:122-134 | In flat green the sample moves by the detail of the colour alone, and not at all where the two are not related. |
| DemosaicTurns.Chessboard | lightcrafts/jnisrc/dcraw/dcrawUtils.cpp:95-99 | The sites are the inner fields of one colour of a chessboard, and their colour goes by the row. |
| DemosaicTurns.GreenTurned | lightcrafts/jnisrc/dcraw/dcrawUtils.cpp:90-142 | Mirroring, upending or transposing the image and its filter does the same to the result of the green pass: no direction is favoured. |
| Demosaic.ColourReads | lightcrafts/jnisrc/dcraw/dcrawUtils.cpp:230-256 | Observed samples and the green channel are never written by the red or blue pass. |
| Demosaic.ChromaKept | lightcrafts/jnisrc/dcraw/dcrawUtils.cpp:241-258 | Where green minus colour is the same around a pixel, its three samples are green less that difference, with C's division towards zero. |
| DemosaicEdges.NearestMean | lightcrafts/jnisrc/dcraw/dcrawUtils.cpp:241-258 | Whichever of the three samples a pixel is, it gets its green less the mean of green minus colour over the observed pixels next to it. |
| DemosaicEdges.EveryPixelFilled | lightcrafts/jnisrc/dcraw/dcrawUtils.cpp:230-262 | Away from the border every pixel without an observation is filled in. |
| Demosaic.WrittenAt | lightcrafts/jnisrc/dcraw/dcrawUtils.cpp:241-258 | Each target is written by exactly one loop position. |
| Demosaic.ColourSite | lightcrafts/jnisrc/dcraw/dcrawUtils.cpp:236-262 | One loop position: three samples from direct reads, and the registers moved on. |
| Demosaic.InterpolateRedOrBlue | lightcrafts/jnisrc/dcraw/dcrawUtils.cpp:225-265 | For any order of the rows the buffer becomes a function of what it was. |
| Demosaic.PassesCommute | lightcrafts/jnisrc/dcraw/dcrawUtils.cpp:312-325 | Red and blue may run in either order. |
| Convolution.Separable | lightcrafts/jnisrc/jai/Convolutions.cpp:478-524 | The separable sum equals the direct double sum over the kernel. |
| ConvolutionResponse.OneTapShifts | lightcrafts/jnisrc/jai/Convolutions.cpp:402-551 | With one tap in each kernel the output is the source, as many rows down and taps to the right, within 0 and the maximum. |
| ConvolutionResponse.Nearest | lightcrafts/jnisrc/jai/Convolutions.cpp:516-524 | What is stored is the nearest number of the range, the larger one between two. |
| Convolution.RingStep | lightcrafts/jnisrc/jai/Convolutions.cpp:482-484 | Storing one sum loses only the row kh rows back: slot r mod kh holds row r for all live rows. |
| Convolution.HorizontalSum | lightcrafts/jnisrc/jai/Convolutions.cpp:479-481 | The horizontal taps of a pixel. |
| Convolution.VerticalSum | lightcrafts/jnisrc/jai/Convolutions.cpp:516-523 | The revolving vertical kernel over the ring. |
| Convolution.Prime | lightcrafts/jnisrc/jai/Convolutions.cpp:428-451 | The rows before the first output row are in the ring. |
| Convolution.ConvolveLoop | lightcrafts/jnisrc/jai/Convolutions.cpp:402-551 | Every output is clamp(0.5 + the direct double sum), cut by the cast; no other cell of the destination changes. |
| ConvolutionBands.HorizontalSums | lightcrafts/jnisrc/jai/Convolutions.cpp:334-343 | All bands of a pixel at once. |
| ConvolutionBands.VerticalSums | lightcrafts/jnisrc/jai/Convolutions.cpp:351-367 | The vertical kernel over all bands of a pixel. |
| ConvolutionBands.ConvolveBandsLoop | lightcrafts/jnisrc/jai/Convolutions.cpp:262-400 | The interleaved form gives the same result in every band. |
| TiffTiles.CpStripToTile | lightcrafts/jnisrc/tiff/tiffcp.c:838-847 | The skewed copy moves exactly the block's bytes and leaves all others. |
| TiffTiles.ByteInTile | lightcrafts/jnisrc/tiff/tiffcp.c:985-1010 | Every byte of the image lies in the visible part of exactly the tile the loops visit for it. |
| TiffTiles.WriteBufferToContigTiles | lightcrafts/jnisrc/tiff/tiffcp.c:1165-1211 | The tiles show every byte of the buffer, for tiles wider or taller than the image too. |
| TiffTiles.ReadContigTilesIntoBuffer | lightcrafts/jnisrc/tiff/tiffcp.c:971-1015 | Reading succeeds if and only if all needed tiles are there, and then the buffer is what the tiles show. |
| TiffTiles.RoundTrip | lightcrafts/jnisrc/tiff/tiffcp.c:971-1211 | Writing tiles and reading them restores the buffer for every size of image and tile. |
| TiffPlanes.CpContigBufToSeparateBuf | lightcrafts/jnisrc/tiff/tiffcp.c:849-865 | Every byte of a plane's samples is copied to its place, nothing else. |
| TiffPlanes.CpSeparateBufToContigBuf | lightcrafts/jnisrc/tiff/tiffcp.c:867-883 | The same in the other direction. |
| TiffPlanes.ScatterAndGather | lightcrafts/jnisrc/tiff/tiffcp.c:849-883 | All planes scattered and gathered: byte n of sample s comes back as the byte at s + n of the pixel. |
| TiffPlanes.RestoredExactly | lightcrafts/jnisrc/tiff/tiffcp.c:1249-1267 | Scattering and gathering restores every buffer if and only if samples are single bytes, or there is one sample, or no pixel. |
| TiffPlanes.SpoiledWhen | lightcrafts/jnisrc/tiff/tiffcp.c:1258-1262 | A pixel with samples of several bytes that is not restored: the writer starts plane s at byte s, not at sample s. |
| BoxSum.Transpose | lightcrafts/jnisrc/fast_jai/include/transpose.h:7-26 | The blocked transposition equals the plain one. |
| BoxSum.WindowSlides | lightcrafts/jnisrc/fast_jai/nonLocalMeansFilter.cpp:42-51 | The sliding step gives the next window's sum. |
| BoxSum.BoxSumHorizontalAndTranspose | lightcrafts/jnisrc/fast_jai/nonLocalMeansFilter.cpp:13-56 | Window sums of every row, transposed; cells without a whole window are not touched. |
| BoxSum.HeadsExactly | lightcrafts/jnisrc/fast_jai/nonLocalMeansFilter.cpp:26-36 | What is added up for the heads of the rows lies on the rows, and in the raster, if and only if the window is not wider than the row, or there is no row. |
| BoxSum.BothExactly | lightcrafts/jnisrc/fast_jai/nonLocalMeansFilter.cpp:58-67 | On a raster that is not empty both passes of box_sum read inside their rasters if and only if the window fits into it. |
| BoxSum.HeadLeaves | lightcrafts/jnisrc/fast_jai/nonLocalMeansFilter.cpp:33-35 | A window of three columns leaves a raster of two. |
| BoxSum.BoxSumBoth | lightcrafts/jnisrc/fast_jai/nonLocalMeansFilter.cpp:58-67 | Every interior cell is the direct sum of its window. |
| NonLocalMeans.HalfPlane | lightcrafts/jnisrc/fast_jai/nonLocalMeansFilter.cpp:113-117 | Of two different pixels at distance sr or less exactly one order is visited. |
| NonLocalMeans.OffsetsEnd | lightcrafts/jnisrc/fast_jai/nonLocalMeansFilter.cpp:113-114 | The condition n_offset < 0 leaves out no pair of the image, for any search radius. |
| NonLocalMeans.CoverStep | lightcrafts/jnisrc/fast_jai/nonLocalMeansFilter.cpp:137-148 | A visit passes its own pair and no other. |
| NonLocalMeans.SquareDistances | lightcrafts/jnisrc/fast_jai/nonLocalMeansFilter.cpp:119-130 | The square distances of the offset's pairs, and no other cell. |
| NonLocalMeans.PatchesFrom | lightcrafts/jnisrc/fast_jai/nonLocalMeansFilter.cpp:132-133 | Where both patches lie inside the tile the box sum is the sum of the square distances of their pixels. |
| NonLocalMeans.VisitWeighed | lightcrafts/jnisrc/fast_jai/nonLocalMeansFilter.cpp:142-144 | The weight of every visit is the kernel product times the exponential of what the box sums hold for it, leftovers of earlier offsets near the border included. |
| NonLocalMeans.PatchWeight | lightcrafts/jnisrc/fast_jai/nonLocalMeansFilter.cpp:119-144 | Where both patches lie inside the tile that is the scaled square distance of the patches, whatever the offsets before. |
| NonLocalMeans.VisitOffset | lightcrafts/jnisrc/fast_jai/nonLocalMeansFilter.cpp:135-156 | An offset visits each of its pairs once and updates both pixels. |
| NonLocalMeans.Sums.Add | lightcrafts/jnisrc/fast_jai/nonLocalMeansFilter.cpp:146-154 | The six updates of a visit. |
| NonLocalMeans.Convex | lightcrafts/jnisrc/fast_jai/nonLocalMeansFilter.cpp:166-172 | With weights that are not negative each output lies within any bounds of its diamond. |
| NlmInfluence.Influence | lightcrafts/jnisrc/fast_jai/nonLocalMeansFilter.cpp:146-147 | Changing a pixel changes the sum of another by the weight between the two, and its own sum not at all. |
| NlmInfluence.MaxIs | lightcrafts/jnisrc/fast_jai/nonLocalMeansFilter.cpp:151-154 | The largest weight is one of the weights of the pixel, and none is larger. |
| NlmInfluence.AverageIs | lightcrafts/jnisrc/fast_jai/nonLocalMeansFilter.cpp:166-172 | The pixel takes part with the largest weight it has given, or with 1, and the sum is divided by all the weights. |
| NlmInfluence.FlatWeight | lightcrafts/jnisrc/fast_jai/nonLocalMeansFilter.cpp:117-144 | In a flat image the weight is the kernel at the distance in rows times the kernel at the distance in columns times the exponential at 0, near the border included. |
| NlmInfluence.PointWeight | lightcrafts/jnisrc/fast_jai/nonLocalMeansFilter.cpp:119-144 | Patches of one pixel are at the square of the difference of the pixels. |
| NlmInfluence.CInvIs | lightcrafts/jnisrc/fast_jai/nonLocalMeansFilter.cpp:102-103 | The scale: times the squares of the strength and of the width of a patch it is -1. |
| NonLocalMeans.NlmMonoTile | lightcrafts/jnisrc/fast_jai/nonLocalMeansFilter.cpp:89-178 | On every tile inside which box_sum reads, and on every tile where nothing is done: each unordered pair up to distance sr is visited once, and the weight of each visit is a function of the image; each output is the weighted average over its visits, the pixel itself with the largest weight, and stays within the bounds of its diamond. |
| Wavelet.HatTransform | lightcrafts/coprocesses/dcraw/dcraw_lz.c:3410-3419 | The three loops compute their taps for every position that they come to, on any line whose taps lie in the buffer. |
| Wavelet.TapsMirror | lightcrafts/coprocesses/dcraw/dcraw_lz.c:3410-3419 | On a line at least twice as long as the taps are apart that is one filter with reflecting ends. |
| WaveletResponse.HatContinued | lightcrafts/coprocesses/dcraw/dcraw_lz.c:3410-3419 | Twice the sample and those sc to its left and to its right, on the line continued as in mirrors that stand on its end samples. |
| Wavelet.StaysExactly | lightcrafts/coprocesses/dcraw/dcraw_lz.c:3410-3419 | All reads stay on the line if and only if it is at least twice as long as the taps are apart. |
| Wavelet.LeavesLine | lightcrafts/coprocesses/dcraw/dcraw_lz.c:3413-3414 | A line of 31 samples at the fifth level is left. |
| Wavelet.AllStayExactly | lightcrafts/coprocesses/dcraw/dcraw_lz.c:3448-3461 | In wavelet_denoise every line of every level stays inside the image if and only if it is at least 32 by 32. |
| Wavelet.HatConstant | lightcrafts/coprocesses/dcraw/dcraw_lz.c:3410-3419 | A constant line is kept, with a gain of 4. |
| Wavelet.HatReversed | lightcrafts/coprocesses/dcraw/dcraw_lz.c:3410-3419 | A reversed line gives the reversed output: both ends are treated alike. |
| Wavelet.LowPass | lightcrafts/coprocesses/dcraw/dcraw_lz.c:3452-3461 | Rows, then columns in place, where no line is left; no block but the destination changes. |
| WaveletResponse.NinePixels | lightcrafts/coprocesses/dcraw/dcraw_lz.c:3452-3461 | A level is one sum over nine pixels 2^lev apart, with the weights 4, 2 and 1 over 16. |
| Wavelet.Shrink | lightcrafts/coprocesses/dcraw/dcraw_lz.c:3463-3469 | The detail loop on the three blocks. |
| WaveletResponse.SoftIs | lightcrafts/coprocesses/dcraw/dcraw_lz.c:3464-3468 | The threshold is taken off the size of a detail, whose sign is kept; smaller details are gone. |
| WaveletResponse.ThresholdsAre | lightcrafts/coprocesses/dcraw/dcraw_lz.c:3427-3427 | Each threshold is less than half of the one before, and together they are 1.2815 of the given one. |
| Wavelet.StageStep | lightcrafts/coprocesses/dcraw/dcraw_lz.c:3450-3471 | The ping-pong blocks never lose live data: after each level the low pass and the details are where the next one looks. |
| Wavelet.ErrorBound | lightcrafts/coprocesses/dcraw/dcraw_lz.c:3450-3471 | The details telescope: the result differs from the input by at most the thresholds so far. |
| Wavelet.Denoise | lightcrafts/coprocesses/dcraw/dcraw_lz.c:3448-3473 | All five levels, on every image whose lines are not left, which is every image of at least 32 by 32: within the sum of the thresholds, and exact at threshold 0. |
| Wavelet.ConstantKept | lightcrafts/coprocesses/dcraw/dcraw_lz.c:3448-3473 | A constant image comes out as it is, for any thresholds that are not negative. |
| Wavelet.MirrorKept | lightcrafts/coprocesses/dcraw/dcraw_lz.c:3448-3473 | Denoising the mirrored image gives the mirrored result. |

## Left out
- JNI entry points, file opening, printing, Cocoa and Windows code, libjpeg, libtiff, LCMS, lensfun and LibRaw: not part of this model. TIFF tiles are a map from tile number to bytes, and writing a tile succeeds.
- Thread interleaving: rows and strips are taken one after the other. The demosaic passes are proved for every order of whole rows and for both orders of red and blue; the strips of a Fuji image write disjoint columns.
- Floating-point rounding: convolution, box sums, non-local means and wavelet denoise are over exact reals; `fast_exp` is any function that is not negative.
- FujiWindow.RoundTrip: the stream holds all of the encoder's bits; truncated or corrupt streams are covered by FujiWindow.DecodeEvKeeps and FujiStrip.GroupsInRange only, as far as the decoder does not wait for a 1 bit for ever.
- FujiReader.BitReader.FillBuffer: fread is modelled by its contract, returning at least one byte while there are any.
- FujiBlock.FujiBlock.DecodeBlock: the two block decoders and their twelve pass loops are one loop with the schedule as a parameter, and the two copy loops one loop with the pixel map as a parameter; the entries of `q_table` are signed.
- FujiLoad.LoadRaw: the header has been parsed, and the size table and blocks lie inside a file of less than 4 GB.
- LjpegLoad.LoadRaw: ljpeg_start's marker parsing, restart intervals, sraw, interlaced rows (load_flags & 1) and 16-bit differences of old DNG files are not modelled; the slices add up to the width of the raster, and where samples are too many the last slice is not empty, by whose width the code divides.
- DcrawBits.BitBuf.GetHuff: with no bit left at all the C code shifts by 32; any look-ahead value stands for the result. The running state is one reader's, not the program's static variables.
- LjpegDecoder.Jhead.Row: nothing is promised of a row whose stream ends early, except that the other half of the buffer and the invariants are kept.
- SmalCoder.RoundTrip: the encoder writes every extra bit as 0, which is always possible when it knows the whole value; streams whose encoder sends a late carry in that bit are covered by SmalDecoder.TakeBits, but no encoder is given for them.
- SmalPixels.Segment: nothing but the invariants is promised of a stream that ends early; the segment table of version 9 and fill_holes are not modelled.
- SmalPixels.LoadV6: `maximum` is not modelled.
- Demosaic.InterpolateGreenChannel: refineGreenChannel is not modelled; it reads neighbours that it also writes, so that its result depends on the order of rows. Nor is hot pixel removal.
- Convolution.ConvolveLoop: the source is not the destination, destination lines do not overlap, and the AltiVec branches are not modelled.
- TiffTiles.WriteBufferToContigTiles: the global tilelength equals the tile length of the file, as tiffcp sets it up in lines 326-332; 32-bit overflow of sizes is not modelled.
- TiffPlanes.ScatterAndGather: one block at a time; the loops of the separate-tile functions around it are not modelled.
- NonLocalMeans.NlmMonoTile: where the filter does anything the tile is not empty and box_sum stays inside it, the condition of BoxSum.BothExactly; nlm_chroma_tile, which visits the same pairs for two buffers, is not modelled.
- Wavelet.Denoise: the square root before and the squaring, clipping and green equalisation after the levels are not modelled; images are at least 32 by 32, the condition of Wavelet.AllStayExactly; `temp` is a buffer of its own.
- PixelFlip.Walk: one value a pixel; the curve, byte order and headers of the output are not modelled.
- Integer widths: where a 16-bit or 8-bit cell or an unsigned comparison matters it is written out; 32-bit overflow of indices and sizes is not modelled.
- Blend modes, highlight recovery, colour conversion, bilateral filters, camera tables and metadata: long case lists or machine arithmetic with shallow properties.
