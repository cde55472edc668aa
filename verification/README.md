# Verification of the video output library

A Dafny 4.11 model of the two halves of the display library and proofs about them. `dafny verify dfyconfig.toml`
checks everything.

**Frame buffers and test patterns.** `bo_create` turns a pixel format into a dumb-buffer request and the start and pitch
of each plane; `fill_pattern` computes that layout again and draws an SMPTE or a tile picture into the mapped bytes. The
fills are methods with the loops of the program over one `array<Byte>`; a pointer is an offset. A `Raster` says where the
samples of a plane live, a `Picture` is the colour of every pixel and knows no layout. Each fill is proved to store its
picture: every sample byte, chroma that is overwritten several times included, has the byte of a named pixel, and every
other byte of the buffer keeps its value. `Readers` then defines, format by format and without reference to the fills,
where a reader of UYVY, NV12, YUV420, XRGB8888 and the others looks for the components of a pixel, and proves that it
finds the picture, that everything written lies inside the buffer that `bo_create` allocated, and that formats with the same
subsampling show the same image.

**The DRM device.** The kernel is a value: what it reports (`Hardware`), and the buffers, framebuffers and mode sets it
holds (`Resources`). Connectors, CRTCs and planes form a `Device`; hotplug, mode changes and scanout replacement are
functions on it whose laws are proved first. The classes `Card`, `DrmConnector`, `DrmCrtc`, `DriDevice`, `DriElements`
and `ValVideo` update their fields as the program does, and each method is proved to compute exactly the function. Over
whole runs of construction, hotplugs, resolution changes and sink connections, with every pattern of failing requests,
`SystemModel` proves the invariants.

Some natural expectations are false of the code. For each there is an input and the exact condition under which it holds:

- An SMPTE fill divides by zero, exactly for the widths 4, 5 and 6 (`SmpteGeometry.DividesByZero`). Smaller widths are
  fine, because the loop that divides by `width / 7` then has no columns.
- The sixth seventh of the bottom band shows the three black-level entries only; exactly when the width is 4, 5 or 6
  modulo 7, its last column shows the eighth entry (`SmpteGeometry.PlugeIndex`).
- Very wide frames are drawn wrong. The unsigned products of the SMPTE fills wrap outside `SmpteGeometry.NoWrapExactly`
  (example `WideFrameWraps`), and the signed product of the tile fills overflows outside `Pictures.TileSafeExactly`
  (example `WideTilesOverflow`). The fills are modelled with 32-bit arithmetic and required to stay inside; every frame
  below 2^16 in each dimension does (`Readers.SmallFramesFillable`).
- `bo_create` and `fill_pattern` agree on the third plane exactly under the parity condition of `Readers.ThirdPlaneAgrees`:
  one halves the chroma size before it is cut to 32 bits, the other after. A difference needs a 64-bit `size_t` and a
  luma plane of at least 8 GiB (example `Readers.ThirdPlanesDiffer`).
- A scanout buffer is given back twice exactly when a CRTC is used again after a failed request that was preceded by a
  successful one: `Scanout.StrayExactly` for any sequence of calls, `ServiceHistory.ServiceStraysExactly` for any run of
  the service, with the example `Scanout.RetryStrays`.
- `getPlanes` lists a plane twice exactly when it can feed two connected CRTCs (`Sinks.PlanesDistinctExactly`, with the
  example `Sinks.SharedPlaneRepeats`).
- After a resolution change the logical planes still report the old limit, until the next hotplug
  (`ResolutionChanges.KeepsCurrentExactly`, with the example `ResolutionChanges.StaleAfterResolution`).
- `setDisplayResolution` reports the opposite of what happened to a size and path it accepted (`ResolutionChanges.ReportInverted`).
- `getSupportedResolutions` repeats a size exactly when that size is not contiguous in the kernel's list
  (`Resolutions.SupportedNoRepeatExactly`, with the example `Resolutions.RepeatExample`).

| file | contents |
|---|---|
| `Raster.dfy`, `Search.dfy` | bytes, 32-bit arithmetic, strided sample grids; searches in lists |
| `Format.dfy`, `FormatName.dfy`, `Colour.dfy`, `Picture.dfy` | pixel formats and RGB words, what format names say, BT.601 conversion, the two test pictures |
| `Smpte.dfy`, `SmpteFill.dfy` | geometry of the bars, the band loops of the SMPTE fills |
| `YuvFill.dfy`, `RgbFill.dfy`, `TileFill.dfy` | the fills, family by family |
| `Buffer.dfy`, `Pattern.dfy`, `Reader.dfy` | `bo_create`, the dispatchers, decoding and `fill_pattern` |
| `Kernel.dfy`, `CrtcChoice.dfy`, `DeviceModel.dfy` | the kernel side, the choice of a CRTC, one hotplug pass |
| `ModeName.dfy`, `ModeSetting.dfy`, `Scanout.dfy`, `Sinks.dfy` | mode names, mode sets, scanout buffers, planes and sinks |
| `System.dfy`, `ResolutionChange.dfy`, `History.dfy`, `Use.dfy` | the service over whole runs, resolution changes, the scanout calls and mode sets of a run, and what its users see |
| `Resolutions.dfy` | supported resolutions |
| `Connector.dfy`, `Device.dfy`, `Elements.dfy` | the classes |

Assumptions: a dumb buffer honours `pitch * 8 >= width * bpp` and `size >= pitch * height`; handles are positive and
never reused; there are at most 32 CRTCs; the answers to queries do not change during one pass over a device. After a
failed request the program keeps a pointer to a buffer object that it has freed, and reads the handle from it at the next
request; the model takes that read to yield the old handle, which the results about runs with failures rest on.

## Model

| member | source | states |
|---|---|---|
| Colours.Range601 | tests/format.h:94-96 | MAKE_YUV_601 keeps Y in 16..235 and U, V in 16..240 for every 8-bit colour (section 2.5.3 of ITU-R BT.601-7) |
| Colours.MakeYuvIsBt601 | tests/format.h:94-102 | Y, U and V of every 8-bit colour are within one step of the exact luma, Cb and Cr of ITU-R BT.601-7 |
| Colours.RedBar | tests/format.h:94-102 | the red bar is stored as (66, 100, 212) |
| Colours.WrapIsExact | tests/format.h:94-96 | evaluating the macros on uint32_t with wrap-around and a logical shift stores the same three bytes as exact signed arithmetic |
| Colours.LogicalShiftByte | tests/format.h:95-96 | the logical shift of a wrapped sum and the arithmetic shift of the exact sum agree in the byte that is stored |
| Formats.PackUnpack | tests/format.h:104-108 | extracting each field of MAKE_RGBA gives the top bits of that channel, for every layout with disjoint fields of at most eight bits |
| Formats.WordFits | tests/format.h:104-108 | a packed word needs no more bits than its layout |
| Formats.TopQuotient | tests/format.h:104-108 | the top bits of a channel are the channel divided by 2^(8 - length), rounded down |
| FormatNames.TableFollowsNames | tests/format.h:143-181 | every RGB row has its components where the name of the format puts them, from the most significant bit down, and bo_create gives the pixel exactly the bits that the name lists |
| Buffers.RowsFitPixels | tests/format.h:143-181 | an RGB row of the table has shift counts that do not wrap exactly when it has no ten-bit channel, and its fields are then disjoint and inside the pixel size that bo_create chooses |
| Buffers.YuvRows | tests/format.h:129-141 | the YUV rows: two columns share chroma, exactly one chroma order bit is set, packed rows start with exactly one of luma and chroma, and the strides match the family |
| SmpteGeometry.BarIsSeventh | tests/pattern.cpp:108-118 | in the upper bands column x gets table entry k exactly when it lies in seventh k of the width |
| SmpteGeometry.BottomSegments | tests/pattern.cpp:120-128 | which columns of the bottom band get each of the eight entries: quarters of the left five sevenths, three black-level bars, then the last entry |
| SmpteGeometry.PlugeIndex | tests/pattern.cpp:123-124 | the black-level index stays in the table, and reaches the last entry exactly in the last column of its segment and only when the width is 4, 5 or 6 modulo 7 |
| SmpteGeometry.DividesByZero | tests/pattern.cpp:120-126 | some column divides by width / 7 == 0 exactly for widths 4, 5 and 6 |
| SmpteGeometry.BandNinths | tests/pattern.cpp:108-120 | the top band is exactly the upper two thirds of the rows, the middle band reaches down to seven ninths |
| SmpteGeometry.ChromaBand | tests/pattern.cpp:131-164 | a chroma row shows the band of the last luma row it covers, although its band limits are computed from the chroma height |
| SmpteGeometry.NoWrapExactly | tests/pattern.cpp:108-128 | no unsigned product of the column and row loops wraps at any column exactly when 7 * (width - 1) and 7 * height are below 2^32 |
| SmpteGeometry.TopExactly | tests/pattern.cpp:108-118 | the wrapped index of the upper bands is the exact one at every column exactly when 7 * (width - 1) is below 2^32; otherwise the last column gets an earlier bar |
| SmpteGeometry.BottomExact | tests/pattern.cpp:120-128 | in such frames the wrapped index of the bottom band is the index of the bar |
| SmpteGeometry.WideFrameWraps | tests/pattern.cpp:120-128 | in a frame of 10^9 columns it is not: column 2 * 10^8 belongs to bar 1 and gets entry 6 |
| SmpteFill.BarsShow | tests/pattern.cpp:130-164 | a sample of a pass shows the bar of the leftmost pixel in the last row of its block |
| Pictures.StandardBars | tests/pattern.cpp:283-299 | the seven upper bars drop green after four bars, red after each second pair and blue after each bar; the middle band shows the bars with blue backwards between black ones |
| Pictures.StandardBottom | tests/pattern.cpp:300-309 | the bottom band: in-phase, white, quadrature, and black with one step of ten below and one above it |
| Pictures.YuvTableIsRgb | tests/pattern.cpp:74-101 | the YUV tables hold the same colours, except one step less red in the first grey |
| SmpteFill.FillBars | tests/pattern.cpp:107-164 | one pass of three row loops paints every sample of its plane with its bar and touches no other byte |
| SmpteFill.SmptePass | tests/pattern.cpp:107-164 | one pass stores the SMPTE picture, sampled at the pass's chroma site |
| YuvFill.FillSmpteYuvPlanar | tests/pattern.cpp:62-165 | for every width, height, stride and chroma arrangement whose planes fit and are disjoint: luma (x,y) is the Y of its bar, chroma (cx,cy) the U, V of pixel (xsub*cx, ysub*cy+ysub-1), padding unchanged, and an empty frame writes nothing |
| YuvFill.PackedLaid | tests/pattern.cpp:207-210 | in all four packed orders the luma and chroma bytes never meet and lie inside the buffer |
| YuvFill.FillSmpteYuvPacked | tests/pattern.cpp:167-269 | after both passes every luma byte and every pair of chroma bytes shows the SMPTE picture, and nothing else changed |
| RgbFill.WordRoundTrip | tests/pattern.cpp:314-334 | reading n little-endian bytes of a stored word gives the word back |
| RgbFill.FillSmpteRgb | tests/pattern.cpp:271-467 | every byte of every 2-, 3- or 4-byte pixel is the byte of the packed word of its bar, and nothing else changed |
| RgbFill.FillTilesRgb | tests/pattern.cpp:682-768 | the same for the tile picture with the alpha of each pixel size |
| Pictures.TileSafeExactly | tests/pattern.cpp:628-629 | neither x + y nor the signed colour product leaves int32_t at any pixel exactly when it does not at two of them: the last one, and the last one of the rows before |
| Pictures.SmallFramesSafe | tests/pattern.cpp:628-629 | every frame below 2^16 in each dimension is of this kind |
| Pictures.WideTilesOverflow | tests/pattern.cpp:628-629 | a frame of 208400 by 2 is not: the product at the end of its first row reaches 2^31 |
| Pictures.TileInt | tests/pattern.cpp:628-629 | evaluated with 32-bit operands, each intermediate result in range, the colour word is the exact one |
| Pictures.TileComponents | tests/pattern.cpp:628-630 | red, green and blue of a tile are bytes 2, 1 and 0 of its colour word |
| Pictures.TileSteps | tests/pattern.cpp:628-630 | the colour after 64 columns and after 64 whole rows |
| Pictures.TileAlphas | tests/pattern.cpp:750-757 | only 32-bit tiles are translucent, and exactly in the upper left quarter; 24-bit pixels have no alpha |
| TileFill.TileYuvExact | tests/pattern.cpp:628-630 | the colour bytes of the tile fills are the exact BT.601 bytes of the tile picture |
| TileFill.TileStep | tests/pattern.cpp:632-634 | the three stores of one pixel keep everything already settled and make this pixel the last writer of its block so far |
| TileFill.EndOfRow | tests/pattern.cpp:637-641 | the state after the last pixel of a row is the state before the first pixel of the next: the chroma row of a finished block is settled, that of an unfinished one is open again |
| TileFill.PairedAt | tests/pattern.cpp:665-676 | in the packed tile picture both pixels of a pair have the colour of the first |
| TileFill.FillTilesYuvPlanar | tests/pattern.cpp:604-643 | chroma settles on the last write: sample (cx,cy) ends as the U, V of pixel (xsub*cx+xsub-1, ysub*cy+ysub-1), luma shows every pixel, and nothing else changed |
| TileFill.FillTilesYuvPacked | tests/pattern.cpp:645-680 | both pixels of a pair show the colour of the first, in all four packed orders, and nothing else changed |
| Patterns.FillSmpte | tests/pattern.cpp:469-538 | whatever the format, the dispatcher draws the SMPTE picture into the planes of that format, U and V not exchanged; an unknown format draws nothing |
| Patterns.FillTiles | tests/pattern.cpp:770-839 | the same for the tile picture |
| Buffers.BoCreate | src/val/buffer.cpp:137-311 | the request made of the kernel, the whole contents of the three caller arrays for every format, entries beyond the planes untouched, and no buffer for an unknown format or a refused request |
| Buffers.SecondPlaneExact | src/val/buffer.cpp:240-264 | the computed start of the second plane is its true start exactly when the first plane is below 2^32 bytes |
| Buffers.LayoutExact | src/val/buffer.cpp:209-307 | for every format, starts and pitches are the exact ones when nothing wraps; formats with one plane have it at byte 0 |
| Buffers.RequestTight | src/val/buffer.cpp:144-227 | the request has exactly as many bits as the samples of the frame |
| Readers.PlanePointers | tests/pattern.cpp:927-1005 | the planes start at the exact plane boundaries whenever the layout arithmetic does not wrap, for every format |
| Readers.ThirdPlaneAgrees | tests/pattern.cpp:953-964 | fill_pattern, with a 64-bit size_t, and bo_create compute the same third plane exactly when the chroma size leaves an even number of whole turns of 2^32 |
| Readers.ThirdPlanesDiffer | tests/pattern.cpp:953-964 | for rows of 131072 bytes and 65536 of them, one starts the third plane at 2^31 and the other at 0 |
| Readers.PointersExact | tests/pattern.cpp:939-964 | without wrap-around the pointers are the exact plane starts |
| Readers.BackedIsReady | src/val/buffer.cpp:209-266 | the buffer that bo_create asked for has room for every sample of every plane, and the planes are disjoint, given the dumb-buffer contract and a size below 2^32 bytes |
| Readers.FrameShows | tests/pattern.cpp:481-495 | a reader of a YUV format finds at every pixel, inside the buffer, the components of the picture |
| Readers.WordsShow | tests/format.h:143-181 | a reader of an RGB format, who goes by the name of the format, finds at every pixel the picture, cut to the length of each field |
| Readers.DecodesConverted | tests/pattern.cpp:481-495 | a reader of a YUV format finds the BT.601 luma of each pixel, and as U and V the Cb and Cr of the pixel that its block takes its chroma from |
| Readers.FillPlain | tests/pattern.cpp:841-845 | exactly the bytes of the first plane below stride * height, wrapped to 32 bits, become 0x77; the rest of the buffer is untouched |
| Readers.UtilFillPattern | tests/pattern.cpp:885-908 | wherever the planes of the format are, the call draws the picture into them and changes nothing else; an empty frame or an unknown format changes nothing |
| Readers.EffectShows | tests/pattern.cpp:885-908 | on the planes of the exact layout a reader of the format then sees the picture, and only bytes that belong to a pixel of the frame changed |
| Readers.SmallFramesFillable | tests/pattern.cpp:910-1010 | every frame below 2^16 in each dimension with whole chroma blocks and no SMPTE width of 4 to 6 meets the premises of the fills |
| Readers.FillPattern | tests/pattern.cpp:910-1010 | the same end to end, from the buffer of bo_create and its recomputed layout; a failed mapping changes nothing |
| Readers.OneImage | tests/pattern.cpp:481-495 | two formats with the same subsampling decode to the same colour at every pixel after the same pattern, whatever their layouts and pitches |
| Readers.Subsamplings | tests/format.h:129-141 | those classes are exactly the packed formats, NV12/NV21/YUV420/YVU420, and NV16/NV61 |
| CrtcChoice.FindCrtc | src/val/driElements.cpp:273-311 | the nested search computes the chosen CRTC |
| CrtcChoice.SearchFinds | src/val/driElements.cpp:292-308 | the fallback search answers with the first compatible CRTC of the last available encoder that offers any |
| CrtcChoice.SearchFails | src/val/driElements.cpp:292-308 | it answers 0 exactly when no available encoder offers any |
| CrtcChoice.CurrentCrtc | src/val/driElements.cpp:277-287 | a connector with an encoder gets that encoder's CRTC, even when that is none |
| CrtcChoice.FallbackCrtc | src/val/driElements.cpp:289-310 | the choice of any other connector, in both directions, for 31-bit ids and at most 32 CRTCs |
| CrtcChoice.OneBitIsLowest | src/val/driElements.cpp:319-320 | in a mask with one bit, ffs finds that bit |
| DeviceModel.LastWriterWins | src/val/driElements.cpp:226-271 | after the pass each CRTC is as the last plugged connector resolving to it leaves it, or untouched |
| DeviceModel.TouchedCrtc | src/val/driElements.cpp:251-267 | a touched CRTC drives exactly its last taker, which is connected and has modes; its limit is that connector's first mode when the mode is real and smaller than the configured size in some dimension, and the configured size otherwise; its minimum is the last mode; ids and handles are kept |
| DeviceModel.UnpluggedIgnored | src/val/driElements.cpp:236-237 | a connector that is not connected or has no modes is refetched, keeps its binding and takes no CRTC |
| DeviceModel.PluggedBound | src/val/driElements.cpp:239-248 | any other connector is bound to the CRTC it resolves to, listed or not, and keeps its binding when it resolves to none |
| DeviceModel.UntouchedCrtc | src/val/driElements.cpp:233-245 | an untouched CRTC keeps everything |
| DeviceModel.ConnectorsRefreshed | src/val/driElements.cpp:233-248 | every connector ends as the kernel reports it, bound to the CRTC it wants |
| DeviceModel.HistoryIndependent | src/val/driElements.cpp:226-271 | after a pass the connectors and limits of a touched CRTC depend on the hardware and the size passed in only |
| SystemModel.HotplugForgets | src/val/driElements.cpp:128-152 | after a hotplug they depend on the hardware and the device's limits only, whatever size was configured and whatever happened before |
| DeviceModel.PassIdempotent | src/val/driElements.cpp:226-271 | a second pass over the same hardware changes nothing |
| ModeNames.NameReads | src/val/driElements.cpp:348-349 | the printed name is the width, an x and the height, in decimal |
| ModeNames.ModeNameInjective | src/val/driElements.cpp:348-349 | two resolutions never print the same mode name |
| ModeSetting.FindMode | src/val/connector.cpp:56-70 | the first mode with the name and, when given, the refresh rate; none exactly when no mode matches |
| ModeSetting.CheckDecides | src/val/driElements.cpp:359-385 | the loop over the connectors of a CRTC yields a mode exactly when some member is plugged and every plugged member supports it, and it is the mode of the first plugged member |
| ModeSetting.CheckFetches | src/val/driElements.cpp:362-368 | it has then fetched exactly the named connectors again |
| ModeSetting.SetModeCoherent | src/val/driElements.cpp:346-407 | setActiveMode succeeds exactly when the mode is settable and both requests are granted; it then makes one mode set, with a framebuffer of exactly the requested size, the CRTC's non-empty connectors, and the first mode of that name of the first plugged one, each plugged one having such a mode; and none otherwise |
| ModeSetting.SetHasSize | src/val/driElements.cpp:363-377 | with canonical mode names the mode that is set has exactly the requested dimensions |
| ModeSetting.PathFinds | src/val/driElements.cpp:162-171 | the search of changeMode answers with the CRTC of the first plugged connector whose position is the path modulo 256, and has fetched the connectors up to it again |
| ModeSetting.PathFails | src/val/driElements.cpp:162-171 | with no such connector it answers 0, all connectors being fetched again |
| SystemModel.PluggedCounts | src/val/driElements.cpp:536-544 | the number of connectors that are connected and have modes |
| Scanout.ScanoutStep | src/val/driElements.cpp:424-454 | what one call does to its CRTC and its objects, failures included, and when it names a dead handle |
| Scanout.OthersKept | src/val/driElements.cpp:431-453 | the objects of the other CRTCs are not touched |
| Scanout.LiveSets | src/val/driElements.cpp:431-453 | exactly the released objects leave the live sets and exactly the new ones enter |
| Scanout.ConservedStep | src/val/driElements.cpp:424-454 | every live buffer and framebuffer is held by one CRTC after every call, failures included |
| Scanout.NoLeak | src/val/driElements.cpp:424-454 | on every run, failures included, no more buffers are live than there are CRTCs |
| Scanout.StaleExactly | src/val/driElements.cpp:431-449 | a CRTC holds dead handles exactly when it had a buffer once and its last call failed |
| Scanout.StrayExactly | src/val/driElements.cpp:431-434 | no object is destroyed twice on a run exactly when no call finds such a CRTC |
| Scanout.RetryStrays | src/val/driElements.cpp:431-441 | success, failure, success on one CRTC destroys a framebuffer and a buffer that are gone |
| Scanout.ExactlyHeld | src/val/driElements.cpp:424-454 | while requests succeed the live objects are exactly those the CRTCs hold and nothing is destroyed twice |
| Sinks.PlanesListCount | src/val/driElements.cpp:469-488 | getPlanes lists a plane once for every connected CRTC in its mask |
| Sinks.PlanesDistinctExactly | src/val/driElements.cpp:469-488 | the list names no plane twice exactly when no plane can feed two connected CRTCs |
| Sinks.SharedPlaneRepeats | src/val/driElements.cpp:469-488 | one plane of mask 3 and two connected CRTCs: it is listed twice |
| Sinks.PlanesListOrdered | src/val/driElements.cpp:474-485 | of two entries of getPlanes the earlier one comes from an earlier CRTC, or from an earlier plane of the same CRTC |
| Sinks.SinksOrdered | src/val/val_video_impl.cpp:42-56 | so do the planes of two sinks, which start unconnected |
| Sinks.PlaneResolves | src/val/driElements.cpp:313-329 | with one CRTC per mask, a listed plane resolves to the connected CRTC that selected it |
| Sinks.OtherPlanes | src/val/driElements.cpp:313-344 | a plane with an empty mask resolves to no CRTC and no connector, an unlisted one like a plane of the first CRTC |
| Sinks.ConnectedIsBound | src/val/driElements.cpp:331-344 | a CRTC that the first pass connected has a plugged connector bound to it, and the search finds one |
| Sinks.SinksConsistent | src/val/val_video_impl.cpp:39-58 | a sink with a plane has the CRTC that selected the plane and a plugged connector bound to that CRTC; sinks beyond the list are dummies |
| Sinks.SinksDistinct | src/val/val_video_impl.cpp:39-58 | two sinks with planes never share one |
| SystemModel.BootEstablishes | src/val/val_video_impl.cpp:26-58 | construction establishes the invariant, with every logical plane current, whatever requests fail |
| SystemModel.BootSinks | src/val/val_video_impl.cpp:39-56 | the sinks of the constructed service are those of the first pass |
| SystemModel.BootHealthy | src/val/driElements.cpp:34-53 | when its requests are granted, construction leaves live handles only |
| SystemModel.StepKeeps | src/val/val_video_impl.cpp:91-277 | every event keeps the invariant: limits inside the guard of updatePlanes, at most one connector per CRTC, buffers conserved, sound mode sets |
| SystemModel.RunKeeps | src/val/val_video_impl.cpp:91-277 | the invariant holds after every run of events |
| SystemModel.ServiceSafe | src/val/val_video_impl.cpp:26-277 | from an unused card, over construction and any run, failures included: the invariant, and never more live buffers than CRTCs |
| SystemModel.HotplugUpdates | src/val/val_video_impl.cpp:266-277 | the guard never skips an update: after a hotplug every logical plane with an existing CRTC has exactly that CRTC's limit |
| SystemModel.HotplugIdempotent | src/val/driElements.cpp:128-152 | a second identical hotplug changes nothing in the whole service |
| SystemModel.SinkIdsFixed | src/val/val_video_impl.cpp:91-117 | no event changes the plane, CRTC or connector of a sink |
| SystemModel.RunKeepsSinks | src/val/val_video_impl.cpp:91-117 | nor does any run |
| ServiceUse.TogglesSink | src/val/val_video_impl.cpp:91-117 | connect and disconnect set and clear the flag of their sink and change nothing else |
| ServiceUse.RunConnected | src/val/val_video_impl.cpp:91-117 | on every run a sink is connected exactly when its last connect or disconnect was a connect |
| ServiceUse.ServicePlanes | src/val/val_video_impl.cpp:33-37 | from construction on, over any run, logical plane i has number i, a sink, and the smallest size of the device |
| ServiceUse.RunInLimits | src/val/val_video_impl.cpp:244-287 | over any run, failures included, no size below the minimum or above the maximum of the device is ever set |
| ResolutionChanges.ChangesExactly | src/val/driElements.cpp:154-188 | for an accepted size and path, changeMode succeeds exactly when the path leads to a CRTC, every plugged connector of it has the mode, there is one, and both requests are granted |
| ResolutionChanges.ReportInverted | src/val/val_video_impl.cpp:244-264 | setDisplayResolution reports success exactly when size and path were accepted and no change was carried out; no limit changed then, and the configured size changes exactly with a change |
| ResolutionChanges.ResolutionFetches | src/val/val_video_impl.cpp:251-256 | a resolution change with a size inside the limits fetches every connector again and rebinds none |
| ResolutionChanges.KeepsCurrentExactly | src/val/val_video_impl.cpp:244-264 | the logical planes stay current over a resolution change exactly when one of these conditions fails or the CRTC's planes had that limit already |
| ResolutionChanges.StaleAfterResolution | src/val/val_video_impl.cpp:244-264 | a service just constructed on a card with one CRTC, plane and connector, whose logical plane still reports 1920x1080 after the change to 640x480 |
| SystemModel.StepHealthy | src/val/driElements.cpp:424-454 | an event whose requests are granted destroys nothing twice and keeps every held buffer live |
| SystemModel.RunHealthy | src/val/driElements.cpp:424-454 | so does every run of them |
| SystemModel.HealthyIsExact | src/val/driElements.cpp:424-454 | the live objects are then exactly those the CRTCs hold |
| ServiceHistory.ServiceFollows | src/val/driElements.cpp:34-188 | from construction on, over any run, failures included: handles and live objects are those that the createScanoutFb calls of the run alone leave |
| ServiceHistory.ServiceStraysExactly | src/val/driElements.cpp:431-434 | over any run of the service an object is destroyed twice exactly when some CRTC is used again after a failed call on it that was preceded by a successful one |
| ServiceHistory.ServiceSized | src/val/driElements.cpp:401-402 | with canonical mode names, over any run, failures included, every mode that is set has exactly the dimensions of the framebuffer it is set with |
| Resolutions.SupportedMembers | src/val/val_video_impl.cpp:279-295 | the answer contains exactly the sizes among the modes that lie between the minimum and the maximum of the device in both dimensions |
| Resolutions.SupportedOrder | src/val/val_video_impl.cpp:289-295 | in the kernel's order |
| Resolutions.SupportedNoRepeatExactly | src/val/driElements.cpp:555-559 | without repeats exactly when every valid size is contiguous in the kernel's list |
| Resolutions.FilterFirst | src/val/val_video_impl.cpp:289-295 | for contiguous sizes, filtering before or after dropping repeats is the same |
| Resolutions.RepeatExample | src/val/val_video_impl.cpp:289-295 | a list for which the two orders differ and the answer repeats |
| DrmObjects.DrmConnector.IsPlugged | src/val/connector.cpp:32-44 | the connector is replaced by the kernel's answer, which decides the result |
| DrmObjects.DrmConnector.GetModeRange | src/val/connector.cpp:46-54 | last and first mode of a plugged connector |
| DrmObjects.DrmConnector.GetMode | src/val/connector.cpp:56-70 | the first mode with the name and, when given, the refresh rate |
| DrmObjects.DrmConnector.IsModeSupported | src/val/connector.cpp:72-86 | true exactly when some mode matches, and exactly when getMode would find one |
| DrmObjects.DrmConnector.GetSupportedModes | src/val/connector.cpp:120-133 | the sizes of all modes in order |
| DrmObjects.DrmCrtc.CreateScanoutFb | src/val/driElements.cpp:424-454 | the new handles and the new kernel state, with old handles left in place on failure |
| DrmObjects.DrmCrtc.BindConnector | src/val/driElements.cpp:253-267 | the CRTC drives this connector only; its limit is the first mode or the configured size, as in `TouchedCrtc`, its minimum the last mode |
| DriDevices.DriDevice.SetupDevice | src/val/driElements.cpp:226-271 | the loop leaves the device that the pass describes |
| DriDevices.DriDevice.FindCrtcOfPlane | src/val/driElements.cpp:313-329 | the CRTC of a plane mask |
| DriDevices.DriDevice.FindConnector | src/val/driElements.cpp:331-344 | the first connector bound to that CRTC, 0 for none |
| DriDevices.DriDevice.CheckConnectors | src/val/driElements.cpp:359-379 | the loop over the connectors of a CRTC refetches them and answers as the check describes |
| DriDevices.DriDevice.SetActiveMode | src/val/driElements.cpp:346-407 | device, kernel and result as the mode set describes |
| VideoService.DriElements.UpdateDevice | src/val/driElements.cpp:128-152 | the pass uses the initial size whenever the configured one differs; an unknown device changes nothing |
| VideoService.DriElements.Open | src/val/driElements.cpp:41-51 | a pass and then a mode set on every CRTC with its own limit |
| VideoService.DriElements.ChangeModeOf | src/val/driElements.cpp:154-188 | the CRTC of the display path gets the mode, and on success the new limit and configured size |
| VideoService.DriElements.GetModeRange | src/val/driElements.cpp:190-203 | the limits of the first CRTC with the id |
| VideoService.DriElements.GetPlanes | src/val/driElements.cpp:469-488 | the planes of every connected CRTC, in order |
| VideoService.DriElements.GetSupportedNumConnector | src/val/driElements.cpp:536-544 | the number of plugged connectors, all of them refetched |
| VideoService.DriElements.GetSupportedModes | src/val/driElements.cpp:546-564 | the sizes without adjacent repeats; nothing for an empty connector list |
| VideoService.ValVideo.constructor | src/val/val_video_impl.cpp:26-58 | construction gives the service that the boot describes |
| VideoService.ValVideo.UpdateLogicalPlanes | src/val/val_video_impl.cpp:266-277 | every logical plane with an existing CRTC takes its limit under the guard |
| VideoService.ValVideo.OnHotplug | src/val/driElements.cpp:128-152 | a hotplug event of the model |
| VideoService.ValVideo.SetDisplayResolution | src/val/val_video_impl.cpp:244-264 | a resolution event of the model, and the result described by `ReportInverted` |
| VideoService.ValVideo.ConnectSink | src/val/val_video_impl.cpp:91-106 | a connect event of the model; the plane is handed out only to a sink that was not connected |
| VideoService.ValVideo.DisconnectSink | src/val/val_video_impl.cpp:108-117 | a disconnect event of the model; false for an unknown or unconnected sink |
| VideoService.ValVideo.GetSupportedResolutions | src/val/val_video_impl.cpp:289-295 | the supported sizes of a display |

## Left out

- Ioctls, memory mapping, udev, GLib timers, file descriptors and logging: their outcomes are parameters (`Hardware`, `Outcome`, the dumb-buffer ioctl as a function of its request, `mapped`).
- More than one card: the program itself works on the first card only.
- Capability files, `getParam`, `setParam`, EDID data and type names: their parsing depends on libraries that are not part of this model; the limits are constants of the service.
- `make_pwetty` and with it the drawing over 16- and 32-bit tile frames: Cairo is not part of this model, the fills are those of a build without it.
- `applyScaling`, `setPlane`, `setPlaneProperties`, `setWindowBlanking`, `setCompositionParams`, `setDualVideo`: single ioctls, constant results or disabled bodies.
- VideoService.ValVideo.SetDisplayResolution: does not cut the count of plugged connectors to 16 bits.
- DriDevices.DriDevice.SetActiveMode: does not model the result of `drmModeSetCrtc`, which the program only logs; error codes are one Boolean, and a failed `createScanoutFb` is taken to report a nonzero `errno`.
- DrmObjects.DrmCrtc.BindConnector: lists the set of connector ids in iteration order.
- RgbFill.FillSmpteRgb: models the 16-, 24- and 32-bit fills as one method with a byte count; a multi-byte store is a loop over its bytes. The ten-bit formats are excluded, since their shift counts `8 - length` wrap.
- YuvFill.FillSmpteYuvPlanar: the luma and chroma passes, and those of the other SMPTE fills, repeat the same three row loops, modelled once in `SmpteFill`; a width or height that cuts a chroma block is excluded.
- TileFill.FillTilesYuvPlanar: excludes sizes that cut a chroma block, for which the last chroma column or row lies outside the planes.
- Readers.FillPattern: assumes that the buffer is below 2^32 bytes; `Buffers.SecondPlaneExact` and `Readers.ThirdPlaneAgrees` say what happens otherwise.
- Null pointers: arrays and objects are never null, so the null checks of the fills have no counterpart.
- The window of the constructor in which the hotplug callback runs before any logical plane is listed: it has no plane to update and is skipped.
- Integer widths of resolutions, ids and refresh rates: natural numbers, except where a conversion matters (CRTC ids to `int32_t`, the display counter modulo 256, offsets and pitches modulo 2^32).
