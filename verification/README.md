# PaperPad verification model

A Dafny 4.11 model of PaperPad, the e-paper client, and PaperSpoon, the host that renders for it: the pixel
pipeline, the PPFB v2 wire protocol, the two ends of the connection, contact tracking and the host's canvases.
`dafny verify dfyconfig.toml` checks the whole project.

## What is modelled

**Pixels.** A `Frame` is a validated Mono1 or Gray8 picture (`Frames`). `X11Bitmap` and `X11Upload` re-lay Mono1
rows in a server's bitmap layout (section 8, "Connection Setup", of the X Window System Protocol: image-byte-order
and the bitmap-format fields) and cut them into PutImage requests (section 9). `MxcfbLayout`, `MxcfbPixels`,
`MxcfbMapped` and `MxcfbBackend` take the same frame into an 8-bit framebuffer with stride, virtual offsets and a
reserved strip, first in a staging buffer and then in the shared mapping. `X11Server` and `MxcfbPanel` say what a
window and a panel show after the requests they accept. `PixelPath` joins host and device.

**Wire.** `WireFraming` is the incremental decoder, `WirePayload` the typed payloads, `WireBytes` the protocol spelled
out in bytes, `WireReader` the blocking readers of both ends.

**Device transport.** `Connection` is the token-guarded slot. `KindleNet` is the state machine of main thread,
writer, reader, reconnector and `Drop`: one action per lock region or channel operation, interleaved freely.
`KindleNetSafety` and `KindleNetRuns` hold its invariant, `KindleNetSession` what no run ever does, and
`KindleNetProgress` that no reachable state is stuck.

**Host transport.** `HostConnection` is the shared slot, `HostSender` the frame sender, `HostRuns` the theorems over
every history and `HostStreams` what a device reads of one. Connection changes made by other threads between the
sender's activity check and its write are an argument of the operation.

**Contacts.** `DeviceInput`, `ButtonGrid` and `HostInput` are the automata of the two machines with
characterisations of their traces; `ContactPath` composes them.

**Drawing.** `Raster` gives rectangles, outlines and text as point sets, `Painting` says what it is to paint one in a
color; `MonoCanvas` and `GrayCanvas` do it.

**Event loop.** `Mailbox` and `X11Display` are the two objects, `EventLoop` the state machine of polling, viewport
changes and redraws, and `X11Loop` the loop over the objects, which refines it.

## How it is modelled

- Machine integers are subset types (`Machine`), so every 16-, 32- and 64-bit intermediate value is an obligation;
  `usize` is a parameter (`Target`), 32-bit on the device.
- Masks and shifts are operations on binary digits (`Bits`); `u >> k & 1` is `Bit(u, k)`.
- `RowStart(row, stride)` is the product of a row number and a stride (`Arithmetic.RowStartIsProduct`).
- `Arc` identities are numbers that are never used twice. A stream's number is its token.
- Sockets, the kernel, the X server, allocation and the renderer are arguments: what they answer, accept or return.
- A failed write leaves an arbitrary part of its message, short of all of it, on a stream. A stream that has been
  shut down takes no whole message any more.
- Fields named as history (`log`, `done`, `stale`, `clean`, `sent`, `wire`, `taken`, `handed`, `requests`,
  `picture`, `ops`) record what happened; no decision depends on them.

## Where the code does not do what its documentation says

- `send_viewport_changed` is documented to retain a changed viewport and queue it ahead of later pointers
  (src/net/mod.rs:668-672). When the change falls between the reconnector's viewport read (src/net/mod.rs:566) and
  its install (src/net/mod.rs:581) the call finds no connection and succeeds, and the new session keeps the old
  geometry. `KindleNetSession.RacingChangeReachesPeer` exhibits it for any two viewports;
  `PointersFollowGeometry` says exactly which deliveries are affected: those whose session is stale. A session
  becomes stale when it is installed with a viewport other than the local one and no change is still on its way to
  it, and stops being stale when a later change is queued for it.
- `Unchanged` (tools/paperspoon/src/main.rs:418-423) compares with the last frame written to any connection.
  `HostRuns.UnchangedUnseen` exhibits a new peer that has been sent nothing; `UnchangedForPeer` gives the condition
  under which the answer holds for the peer connected now.

Two things the documentation does not say and the theorems had to allow for:

- A strip request takes its update marker before the row offsets are allocated (src/mxcfb/present.rs:89-100,
  src/mxcfb/mapped.rs:134-137). If that allocation fails the marker is lost. `MxcfbBackend.RunMarkers` and
  `AllHanded` say when the markers handed to the kernel are consecutive.
- Sides are capped, so two window sizes can share a viewport. A change between them resets the device's contacts
  (src/app.rs:92-104) but is not reported (src/net/mod.rs:681-683), so the host may still hold a contact that the
  device has dropped; the next press then cancels it. `ContactPath.HostActivates` requires a press that began a
  contact at both ends, and `TrackerIdle` says when the host's end is free.

## Model

| member | source | states |
|---|---|---|
| Frames.PayloadLenTotal | crates/paper-protocol/src/framebuffer.rs:394-411 | No frame with 16-bit sides overflows `usize`, 32-bit or 64-bit, in either format: the checked product is always there and is the rows' total |
| Frames.PaddingByte | crates/paper-protocol/src/framebuffer.rs:351-364 | The mask test on a row's last byte succeeds exactly when every padding bit of the row is white |
| Frames.FirstStainedRowIsFirst | crates/paper-protocol/src/framebuffer.rs:355-364 | The row reported for stained padding is the first stained one; no report means no row is stained |
| Frames.ValidateIsValid | crates/paper-protocol/src/framebuffer.rs:332-391 | Acceptance is exactly validity (nonempty, exact length, white padding), in both formats and on both targets; the overflow error is never produced |
| Frames.RejectedFor | crates/paper-protocol/src/framebuffer.rs:332-391 | What each rejected picture is rejected for: an empty side, a length other than the rows' total, or stained Mono1 padding, with the last byte of that row |
| Frames.PicturesDetermineBytes | crates/paper-protocol/src/framebuffer.rs:180-192 | Two valid frames have the same bytes if and only if they have the same pixels |
| X11Bitmap.NewFormat | src/x11/framebuffer.rs:27-66 | Accepts exactly the two known byte orders, two known bit orders, units and pads of 8, 16 or 32 bits with unit at most pad |
| X11Bitmap.NewAdapter | src/x11/framebuffer.rs:85-112 | An adapter exists exactly for a supported format and a request limit that holds more than the PutImage header, and keeps both as announced |
| X11Bitmap.Adapter.CarriesExact | src/x11/framebuffer.rs:117-123 | The data limit computed by truncation is exactly what one request can carry once its data are padded to whole words |
| X11Bitmap.BitmapFormat.RowStrideFormula | src/x11/framebuffer.rs:68-70 | The case-by-case stride of the model is the source's formula for every supported pad |
| X11Bitmap.EncodeUnit | src/x11/framebuffer.rs:288-309 | Every digit of the unit is the wire pixel that belongs there in the chosen bit order, and white beyond the width |
| X11Bitmap.WriteUnit | src/x11/framebuffer.rs:311-321 | Stores the unit's bytes in the chosen byte order and touches no other byte |
| X11Bitmap.DigitStored | src/x11/framebuffer.rs:288-321 | A pixel's digit ends up in the byte and place that section 8 of the X Window System Protocol assigns to it, for every supported layout |
| X11Bitmap.EncodeRow | src/x11/framebuffer.rs:129-147 | One encoded row, in place: every column up to the pad reads back as the source row and no byte outside the row changes |
| X11Bitmap.EncodeRows | src/x11/framebuffer.rs:125-148 | The whole buffer, row by row, reads back as the frame with all pad bits clear |
| X11Bitmap.Prepare | src/x11/framebuffer.rs:114-156 | Succeeds exactly for a valid Mono1 frame of which a request carries one row; then a server reading the buffer sees the frame at every (x, y), pad bits are 0, a chunk has the most rows a request carries, and the buffer stays under the target's allocation limit |
| X11Bitmap.UnitIndependent | src/x11/framebuffer.rs:114-156 | When byte order and bit order agree the prepared bytes do not depend on the scanline unit |
| X11Bitmap.WireLayoutIsIdentity | src/x11/framebuffer.rs:114-156 | A server using the wire's own layout is sent exactly the wire's bytes |
| X11Upload.ChunksPartition | src/x11/framebuffer.rs:271-285 | Chunks concatenate to the buffer, their 16-bit row counts add up to the height without truncation, and each padded request fits the server's maximum |
| X11Upload.EveryRowUploadedOnce | src/x11/framebuffer.rs:164-223 | Every row of the frame is in exactly one chunk, and read from that chunk's data it is the frame's row |
| X11Upload.DestinationY | src/x11/framebuffer.rs:248-251 | The destination is the exact sum of origin and row offset, and is refused exactly beyond the signed 16-bit range |
| X11Upload.Blit | src/x11/framebuffer.rs:164-223 | Issued requests are the chunks in order, each sent and in its place; every issued one is checked even after a failure; success means all were sent, accepted and flushed; and each error is reported exactly for the first thing that went wrong |
| X11Upload.DestinationsInRange | src/x11/framebuffer.rs:248-251 | A picture drawn from the top edge and no taller than the coordinate range never produces an out-of-range destination |
| X11Server.UploadShows | src/x11/framebuffer.rs:164-223 | On a window whose server carries out all chunks, each pixel inside the frame is black exactly where the frame's is, and every pixel outside is as it was |
| Screen.NewLayout | src/ui/screen.rs:62-87 | Exists exactly for nonempty windows; caps the sides at the signed limit and splits the rows between viewport and strip with no gap or overlap |
| Screen.ExitBoundsOwnership | src/ui/system.rs:82-125 | Exit exists exactly when the full strip fits and the screen is wider than two margins; it starts a margin after the indicator, or after the edge where there is no room for one, and ends a margin before the other edge; it lies in the strip, and no point of it is remote |
| MxcfbLayout.MappingLenExact | src/mxcfb/layout.rs:19-65 | On both targets the checked computation accepts exactly the good geometries, no rejection being an artefact of integer width, and the length is the visible rows' byte count |
| MxcfbLayout.AcceptedIsConsistent | src/mxcfb/metadata.rs:19-80 | Kernel metadata that is accepted has everything later stages rely on: format, offsets, line length, memory bounds, mapping length and matching geometry |
| MxcfbLayout.AcceptedExactly | src/mxcfb/metadata.rs:19-80 | Kernel metadata is accepted exactly when it names the driver, is not rotated, fits the signed coordinates with room above the strip, and has a good geometry and the one supported format; every field is then the kernel's own |
| MxcfbLayout.RegionsReady | src/mxcfb/region.rs:9-100 | For accepted metadata both update regions exist, match the pixels' rectangles, pass the check made again before the ioctl, do not overlap and together cover the screen |
| MxcfbPixels.BlitChecksExact | src/mxcfb/pixels.rs:55-137 | The chain of checked sums and products accepts exactly the frames that are drawable in unbounded arithmetic |
| MxcfbPixels.DrawRow | src/mxcfb/pixels.rs:139-152 | One row: every pixel becomes its Mono1 endpoint or Gray8 level, every other byte is unchanged |
| MxcfbPixels.BlitRemote | src/mxcfb/pixels.rs:55-154 | Succeeds exactly on drawable frames; then each remote pixel has its Mono1 endpoint or Gray8 level and every other byte (padding, virtual offsets, Exit strip) is unchanged; a failure changes no byte |
| MxcfbPixels.StagedOffsetsSucceed | src/mxcfb/pixels.rs:221-241 | After a successful staging blit the offsets recomputed for the copy never fail and name the first remote byte |
| MxcfbPixels.PrepareRemote | src/mxcfb/pixels.rs:192-252 | With memory to stage in, succeeds exactly on preparable frames, and then the staged rows are exactly the frame |
| MxcfbPixels.FilledUnique | src/mxcfb/pixels.rs:138-154 | The drawing relation determines the resulting memory |
| MxcfbMapped.WritableFramebuffer.WriteAt | src/mxcfb/mapped.rs:63-73 | Writes the bytes in range and nothing else; a range that does not fit changes no byte |
| MxcfbMapped.WritableFramebuffer.WritePrepared | src/mxcfb/mapped.rs:77-93 | Succeeds exactly for the mapping the rows were staged for, and then has the effect of drawing the frame directly; an error leaves memory untouched |
| MxcfbMapped.WritableFramebuffer.WriteSystemUi | src/mxcfb/mapped.rs:98-151 | Succeeds exactly for strip-shaped pixels and then fills the strip and nothing else; an error leaves memory untouched |
| MxcfbMapped.PreparableIsDrawable | src/mxcfb/pixels.rs:192-219 | On a mapping of the spec's own geometry the checks of staging accept exactly the frames that direct drawing accepts |
| MxcfbMapped.StageOrDraw | src/mxcfb/mapped.rs:77-93 | Staging a frame and copying its rows into a mapping, and drawing it directly into a copy: with memory and a matching geometry both succeed or both fail, and they end in the same bytes; any failure of the first leaves its mapping untouched |
| MxcfbBackend.FrameReady | src/mxcfb/present.rs:41-56 | For accepted metadata, mapped, every valid frame of the viewport's size passes every check of staging on both targets |
| MxcfbBackend.MxcfbDisplayBackend.PresentRemote | src/mxcfb/present.rs:35-69 | With allocation granted only the kernel can refuse; the pixels are drawn, and then the next marker is handed on with exactly the viewport's rectangle, either way; without allocation nothing changes |
| MxcfbBackend.MxcfbDisplayBackend.DisplayRemoteFrame | src/mxcfb/backend.rs:72-126 | Draws a frame of the right size, ignores any other, and caches it only when the kernel accepted it |
| MxcfbBackend.MxcfbDisplayBackend.RedrawCachedFrame | src/mxcfb/backend.rs:128-173 | Draws the cached frame, which is always still presentable, and never changes the cache |
| MxcfbBackend.MxcfbDisplayBackend.DrawSystemUiStrip | src/mxcfb/present.rs:80-112 | Fails exactly without an Exit control, without memory for the pixels or for the row offsets, or by the kernel's refusal; otherwise the strip, and only it, is the artwork and exactly its rectangle is refreshed; without memory for the row offsets a marker is gone and nothing else has changed |
| MxcfbBackend.WhatIsDrawn | src/mxcfb/backend.rs:72-191 | Which calls draw what: a strip on every screen wider than two margins, a frame of the viewport's size, a redraw of what is cached, memory permitting in each case |
| MxcfbBackend.RunInvariant | src/mxcfb/backend.rs:72-191 | In every run, whatever the kernel and the allocator answer: the cache is the last accepted frame, the viewport shows the last drawn frame and the strip the last drawn strip, and no other byte ever changes |
| MxcfbBackend.AreasDisjoint | src/mxcfb/pixels.rs:84-87 | Remote and strip writes touch disjoint bytes |
| MxcfbBackend.DrawingCommutes | src/mxcfb/mapped.rs:77-151 | Remote and strip drawing commute |
| MxcfbBackend.RedrawRestoresCache | src/mxcfb/backend.rs:128-173 | A redraw, even one the kernel refuses, leaves the viewport equal to the cache |
| MxcfbBackend.MarkerCycle | src/mxcfb/update_marker.rs:17-25 | Markers count cyclically through 1 to 2^32 - 1 and never pass through zero |
| MxcfbBackend.MarkersRepeat | src/mxcfb/update_marker.rs:4-7 | The 2^32 - 1st marker after any is that marker again, so no longer stretch is distinct |
| MxcfbBackend.RunMarkers | src/mxcfb/present.rs:80-112 | In every run the requests take the sequence's markers in order and hand on, in that order, all of them but those of strips whose row offsets could not be allocated; their numbers differ by exactly the count of such strips |
| MxcfbBackend.AllHanded | src/mxcfb/present.rs:80-112 | Every request's marker is handed to submit if and only if no strip ran out of memory after taking its marker |
| MxcfbBackend.TakenMarkersDistinct | src/mxcfb/update_marker.rs:4-7 | In any run the markers taken by any 2^32 - 1 consecutive requests are nonzero and pairwise distinct |
| MxcfbBackend.HandedMarkersDistinct | src/mxcfb/update_request.rs:38-64 | Markers handed to submit are nonzero and differ whenever fewer than 2^32 - 1 requests lie between them, and are equal when exactly that many do; counted in hand-overs the distance is smaller by at most the markers lost |
| MxcfbPanel.PanelShows | src/mxcfb/present.rs:35-112 | In every run the panel, refreshed by the accepted requests from the memory of their moment, shows the last frame and the last strip whose updates were accepted, whatever was drawn or refused since, and no other byte of it changes |
| WireFraming.EncodeV2Message | crates/paper-protocol/src/v2.rs:178-191 | Header and payload in one buffer, refused exactly above the payload limit |
| WireFraming.DecodeOfEncode | crates/paper-protocol/src/v2.rs:178-239 | Decoding an encoded message, whatever follows it, returns it and consumes exactly its bytes |
| WireFraming.EncodeOfDecode | crates/paper-protocol/src/v2.rs:194-239 | Whatever decodes re-encodes to the very bytes it was read from, and never consumes more than there is |
| WireFraming.DecodeStable | crates/paper-protocol/src/v2.rs:194-239 | Complete and error results do not change when bytes are appended |
| WireFraming.IncompleteExact | crates/paper-protocol/src/v2.rs:194-239 | Incomplete with n means that no extension shorter than n completes and one of n does, unless it turns out invalid |
| WireFraming.SplitIndependent | crates/paper-protocol/src/v2.rs:194-239 | Feeding a stream in two pieces drains to what feeding it at once does |
| WireFraming.AnyReads | crates/paper-protocol/src/v2.rs:194-239 | So does feeding it in any pieces whatever |
| WireFraming.StreamRoundTrip | crates/paper-protocol/src/v2.rs:178-239 | A concatenation of messages decodes back to the same list |
| WireBytes.HeaderRefused | crates/paper-protocol/src/v2.rs:194-239 | What twelve bytes are refused for, in order: magic, version, type, flags, length, each with its literal values; and otherwise how much of the message is there |
| WireBytes.HelloBytes | crates/paper-protocol/src/v2_payload.rs:125-135 | The twenty bytes of a Hello, one by one |
| WireBytes.PointerBytes | crates/paper-protocol/src/v2_payload.rs:168-210 | The sixteen bytes of a pointer event, one by one |
| WireBytes.ViewportBytes | crates/paper-protocol/src/v2_payload.rs:154-162 | The sixteen bytes of a viewport change, one by one |
| WireBytes.FrameMessageBytes | crates/paper-protocol/src/v2_payload.rs:413-430 | The bytes of a frame message, one by one |
| WireBytes.HelloRefused | crates/paper-protocol/src/v2_payload.rs:432-549 | What a Hello's payload is refused for, in order: length, version, formats, reserved bytes |
| WireBytes.PlainRefused | crates/paper-protocol/src/v2_payload.rs:432-549 | Pointer and viewport payloads are refused for their length alone |
| WireBytes.FrameRefused | crates/paper-protocol/src/v2_payload.rs:432-549 | What a frame's payload is refused for, in order: length, format, reserved bytes, pixels |
| WirePayload.FormatSets | crates/paper-protocol/src/v2_payload.rs:32-78 | Capability masks behave as nonempty sets: membership after an insertion, and a mask is determined by its memberships |
| WirePayload.EncodeV2Frame | crates/paper-protocol/src/v2_payload.rs:413-430 | Field by field, the frame message; refused exactly when prefix and pixels exceed the payload limit |
| WirePayload.RoundTrip | crates/paper-protocol/src/v2_payload.rs:125-533 | Decoding an encoded Hello, Pointer, Viewport or Frame returns it |
| WirePayload.Canonical | crates/paper-protocol/src/v2_payload.rs:432-549 | Any message the decoder accepts is the encoding of what it returned, byte for byte, and is well formed |
| WireReader.ByteReader.ReadExact | tools/paperspoon/src/inbound.rs:61-76 | All n bytes and the rest left behind, or an end-of-file error |
| WireReader.ByteReader.ReadV2Frame | src/net/mod.rs:294-350 | The two-stage read (header, then what it asks for) sees what one decode of the whole stream would, and reads not a byte further |
| WireReader.ByteReader.ReadInboundMessage | tools/paperspoon/src/inbound.rs:22-100 | The same for the host's reader, where end of file between messages is no error |
| WireReader.OutcomeOfParts | src/net/mod.rs:298-325 | Reading a header and then exactly the bytes it announces always leaves one complete message |
| WireReader.ByteReader.ReadMessage | src/net/mod.rs:294-325 | The reader's own step by step code: what one decode of the whole stream gives, and neither a still incomplete message nor a wrong byte count is ever reported |
| WireReader.TypesAgree | src/net/mod.rs:326-340 | A message of the frame type whose payload decodes holds a frame, whatever a peer sends, so the complaint that type and payload disagree is never made |
| WireReader.ReceivedIsEncoded | src/net/mod.rs:294-350 | A received frame is valid and its bytes are the host's encoding of it |
| WireReader.ByteReader.ReadFrames | src/net/mod.rs:267-292 | The reader thread's loop returns exactly the frames at the front of its stream, up to a clean end or the first error |
| WireReader.FramesRoundTrip | src/net/mod.rs:267-292 | Frames written one after the other are read as those frames; a last one cut short is an end-of-file error and costs nothing before it |
| WireReader.HelloRead | tools/paperspoon/src/inbound.rs:32-43 | A Hello at the head of a stream is read as that Hello |
| WireReader.SessionRoundTrip | tools/paperspoon/src/inbound.rs:45-59 | The host's message loop over what a device wrote returns exactly its whole messages; a message cut short at the end is an end-of-file error and costs nothing before it |
| Connection.ConnectionState.CloneStreamFor | src/net/connection.rs:66-79 | A stream is handed out only for the token that is still current |
| Connection.ConnectionState.CloseIfCurrent | src/net/connection.rs:86-95 | Closes the current stream exactly when it is the candidate's, and says so |
| Connection.ConnectionState.Replace | src/net/connection.rs:81-84 | The stream held before, if any, is shut down and the given one is installed; that the given one was never installed before is kept by `KindleNetSession.ReachableInv` |
| KindleNetSession.ReachableInv | src/net/mod.rs:218-256 | Every interleaving of main thread, writer, reader, reconnector and Drop keeps the invariant of the transport |
| KindleNetSession.StreamsCarryTheirOwn | src/net/mod.rs:218-255 | Each stream carries one Hello, then a prefix, in queue order, of the messages stamped with its token, with at most the last one truncated; a stream that was never installed carries none |
| KindleNetSession.NoMessageCrosses | src/net/connection.rs:66-79 | No message is delivered on a stream other than the one it was stamped for |
| KindleNetSession.NothingLost | src/net/mod.rs:237-255 | Whatever was queued for the current connection has been written to it once the queue is drained |
| KindleNetProgress.WritersStay | src/net/mod.rs:237-255 | No thread ends by itself: until Drop stops them the queue is open, the writer runs, and so does the reconnector |
| KindleNetProgress.QueueDrains | src/net/mod.rs:237-255 | From every reachable state that is not stopping the writer alone can empty the queue and its hands, nothing being queued meanwhile; a connection it was not giving up is then still there and has been sent everything ever queued for it |
| KindleNetProgress.Reconnects | src/net/mod.rs:540-598 | From every reachable state, once started and unless stopping, reader and reconnector alone can lead to a connection, the main thread not moving |
| KindleNetProgress.PointerIsQueued | src/net/mod.rs:663-735 | A pointer sent while connected is stamped for that connection and queued last, unless the queue is full; nothing else changes |
| KindleNetProgress.ViewportIsQueued | src/net/mod.rs:673-715 | A changed viewport is queued for the connection there is, or with a full queue that connection is cut; an unchanged one is not sent again; without a connection it is kept |
| KindleNetProgress.CallsReturn | src/net/mod.rs:663-735 | Whatever the other threads do, the main thread can finish the call it is at |
| KindleNetProgress.DropEnds | src/net/mod.rs:758-778 | Drop, once begun, can come to its end from every reachable state: writer and reconnector can be joined |
| KindleNetSession.DropCutsEverything | src/net/mod.rs:758-778 | After Drop's disconnect no stream is installed, every stream that ever was is shut down, and no further whole message reaches any of them |
| KindleNetSession.PointersFollowGeometry | src/net/mod.rs:559-589 | For every delivered pointer, the last geometry before it on its stream is the local viewport it was queued under if and only if its session was not stale when it was queued |
| KindleNetSession.ConnectionAgrees | src/net/mod.rs:673-715 | Outside the calls that change it, the last geometry queued for the current connection is the local viewport if and only if the session is not stale |
| KindleNetSession.StaleIsMissed | src/net/mod.rs:566-581 | A session is stale exactly when the run installed it under a Hello with another viewport than the local one, with no call still about to offer that one, and has queued no viewport for it since |
| KindleNetSession.CleanIsUndisturbed | src/net/mod.rs:566-581 | The history flag is exactly the absence of a viewport change between the reconnector's viewport read and its install |
| KindleNetSession.UndisturbedPointersAgree | src/net/mod.rs:663-735 | In every run without such a change each delivered pointer is preceded on its stream by geometry equal to the local viewport when it was queued, a full queue included |
| KindleNetSession.RacingChangeReachesPeer | src/net/mod.rs:673-692 | For any two different viewports there is a run in which the change falls into that gap, the call succeeds, and a pointer placed in the new viewport reaches a peer that only knows the old one |
| KindleNetSession.HostReadsStream | src/net/mod.rs:200-235 | Whatever the interleaving, the host reading a device's stream to its end sees its Hello, exactly its whole messages, and a clean end or one truncated message |
| HostConnection.CurrentConnection.InstallForHello | tools/paperspoon/src/server.rs:74-98 | A fresh generation becomes current with its Hello's formats and viewport |
| HostConnection.TargetForwards | tools/paperspoon/src/server.rs:100-165 | The target taken is the one and only target with which a frame of that format would be written now; where none is given, an untargeted frame fails for the reason reported, or the peer has yet to report a viewport |
| HostRuns.TargetSurvives | tools/paperspoon/src/server.rs:100-165 | After any changes by other threads a target is still good exactly when its generation was neither cleared nor replaced and the last viewport reported for it since, if any, is the target's |
| HostConnection.CurrentConnection.ForwardFrame | tools/paperspoon/src/server.rs:138-165 | Writes exactly when connection, generation, viewport and format all agree; a failed write ends the generation |
| HostConnection.CurrentConnection.UpdateViewportIfCurrent | tools/paperspoon/src/server.rs:167-181 | Only the current generation's viewport can be updated, and only by its own token |
| HostConnection.CurrentConnection.ClearIfCurrent | tools/paperspoon/src/server.rs:183-193 | Only the current generation can be cleared, and only by its own token |
| HostConnection.ForwardKeepsInv | tools/paperspoon/src/server.rs:138-165 | Frames reach generations in the order these were installed, in advertised formats only, and a targeted frame only its target |
| HostSender.FrameSender.Send | tools/paperspoon/src/main.rs:245-304 | One send, every outcome: which fields change and what is reported |
| HostSender.FrameSender.SendApplication | tools/paperspoon/src/main.rs:407-441 | As above with suppression of unchanged pictures; the baseline follows successful writes only |
| HostSender.FrameSender.ReplaceForViewport | tools/paperspoon/src/main.rs:443-457 | The baseline is dropped first, so the replacement is never suppressed |
| HostSender.FrameSender.ReplaceForHello | tools/paperspoon/src/main.rs:459-512 | The retained frame is sent again exactly when its size is the Hello's and its format was advertised |
| HostSender.ReplaceApplicationFrame | tools/paperspoon/src/main.rs:515-530 | Input is accepted afterwards only if the replacement was written, and then for its viewport |
| HostSender.ReplaceHelloFrame | tools/paperspoon/src/main.rs:532-548 | Input is accepted afterwards only if the application's own frame was written, and then for its viewport |
| HostRuns.SendExactly | tools/paperspoon/src/main.rs:245-304 | A send writes one frame, to the active peer, with the next identifier, exactly when it is deliverable and accepted; any other changes neither identifier nor authoritative frame nor baseline, stale targets included |
| HostRuns.StaleTargetSaysWhy | tools/paperspoon/src/main.rs:274-287 | A frame prepared for a target reports that the peer changed, that its size changed, or that it lacks the format, exactly when that is so |
| HostRuns.LeadsKeepsInv | tools/paperspoon/src/main.rs:245-304 | Over every history of sends, Hellos, viewport changes, replacements, connection changes and write failures the authoritative record describes the last successful write and a baseline equals its pixels |
| HostRuns.WritesAreNumbered | tools/paperspoon/src/main.rs:245-304 | Successful writes carry identifiers 1, 2, 3, ... without gap, each in a format its peer's Hello advertised, and the device reads each back as exactly that identifier and picture |
| HostRuns.TargetsAreHit | tools/paperspoon/src/main.rs:317-396 | A JPEG or Now Playing frame taken for a target went to that generation, while its viewport equalled the frame's size and its Hello advertised Gray8 |
| HostRuns.UnchangedIsLast | tools/paperspoon/src/main.rs:418-423 | Unchanged means that the candidate equals the last frame written to any connection, and that nothing changed |
| HostRuns.UnchangedForPeer | tools/paperspoon/src/main.rs:418-423 | Unchanged is true of the peer now connected if and only if some frame has been written to it |
| HostRuns.UnchangedUnseen | tools/paperspoon/src/main.rs:418-423 | For any application frame there is a history, one connection answered and gone and the next one installed, after which Unchanged is reported while the new peer has been sent nothing |
| HostRuns.GoneStaysSilent | tools/paperspoon/src/server.rs:157-164 | Nothing more is ever written to a generation that is no longer current, so a message cut short is the last its peer gets |
| HostStreams.DeviceReadsStream | tools/paperspoon/src/main.rs:245-304 | In every history a device reading its connection to the end gets exactly the frames written to it, in order, with their identifiers and pictures, whatever went to other generations; then a clean end or one truncated message |
| HostRuns.HelloIsServed | tools/paperspoon/src/main.rs:459-512 | A Hello answered with a frame is answered with one of its own size, written whole to the peer connected at that moment in a format that peer advertised, and recorded as written; input opens only for the application's frame |
| HostRuns.HelloIsASend | tools/paperspoon/src/main.rs:459-512 | On a live connection the answer to a Hello is one send, over the connection there is by then, of the retained picture or else the fresh one, with every failure passed on |
| HostRuns.HelloReachesItsPeer | tools/paperspoon/src/main.rs:791-813 | In the accept loop's own order, install and answer: a frame goes out exactly when its connection lives, an identifier is left, the picture can be had and encoded and is retained or in an advertised format, and the write is taken; it goes to that very connection in its size and one of its formats, and the device reads it back |
| HostRuns.HelloRetains | tools/paperspoon/src/main.rs:466-476 | The last picture is shown again exactly when its size is the Hello's and its format was advertised: the same picture, unless it was the application's, which is drawn afresh |
| HostRuns.ChangedIsSent | tools/paperspoon/src/main.rs:407-441 | A picture other than the last one written is never held back: it is written, under the next identifier, to the peer there is by then, and becomes the baseline, exactly when it can be drawn and encoded, an identifier is left, a Mono1 peer is connected and the write is taken; otherwise the first of these to fail is reported |
| HostRuns.ViewportReplaced | tools/paperspoon/src/main.rs:443-457 | After a viewport change the same holds of every picture, the last one written included |
| HostRuns.DeliveredIsNotRepeated | tools/paperspoon/src/main.rs:418-423 | The frame just delivered is not written again while a peer is connected |
| DeviceInput.SystemUi.HandlePointer | src/ui/system.rs:42-75 | The Exit contact automaton, one event |
| DeviceInput.AppState.HandlePointer | src/app.rs:106-166 | Local and remote tracking of one event, in the source's order |
| DeviceInput.AppState.UpdateGeometry | src/app.rs:92-104 | Zero sizes and the current size are ignored; any other resets both contacts |
| DeviceInput.ExitContactAt | src/ui/system.rs:42-80 | The Exit contact is idle, armed or cancelled according to the last one or two relevant inputs of the trace |
| DeviceInput.ExitFires | src/ui/system.rs:42-75 | Exit fires if and only if a primary release in the Exit bounds follows, with nothing relevant between, a primary press in the bounds that found no press outstanding |
| DeviceInput.RemoteCancelsExit | src/app.rs:106-166 | An active remote contact implies that Exit is cancelled |
| DeviceInput.NeverBoth | src/app.rs:106-120 | No input yields both Exit and a remote event |
| DeviceInput.ActiveIsOwing | src/app.rs:127-166 | A remote contact is active exactly while the last remote event since any reset is a press |
| DeviceInput.RemoteStream | src/app.rs:127-166 | Between resets remote events alternate press and release; presses are inside the viewport, releases inside or at its exclusive corner; and which inputs yield one |
| ButtonGrid.GridCellSide | tools/paperspoon/src/application_ui.rs:155-165 | A grid exists exactly from 123 by 183 pixels on; the side is the largest with which three cells and their margins fit both ways, with no 16-bit overflow |
| ButtonGrid.CellPlace | tools/paperspoon/src/application_ui.rs:119-153 | Where each of the nine cells lies, by row and column, and its identifier |
| ButtonGrid.ButtonGridOf | tools/paperspoon/src/application_ui.rs:119-153 | The loops build the nine cells row by row, or none |
| ButtonGrid.GridInside | tools/paperspoon/src/application_ui.rs:119-153 | Every button is nonempty, inside the viewport and above the status bar, for every size |
| ButtonGrid.GridDisjoint | tools/paperspoon/src/application_ui.rs:119-153 | No point is in two buttons |
| ButtonGrid.OnlyHit | tools/paperspoon/src/application_input.rs:48-57 | The first button found to contain a point is the only one that does |
| HostInput.ApplicationInput.HandlePointer | tools/paperspoon/src/application_input.rs:39-84 | Contact tracking against the current viewport, one pointer message |
| HostInput.EveryButtonActs | tools/paperspoon/src/application_input.rs:87-100 | Every button of the grid has an action, the one of its place in the table, and no other identifier does |
| HostInput.Activates | tools/paperspoon/src/application_input.rs:39-84 | A button is activated exactly by an Up in it whose message before was a Down in it, itself not preceded by another Down; it reports that button's action |
| ContactPath.HostActivates | tools/paperspoon/src/application_input.rs:34-84 | Across device and host, over lossless in-order delivery and with the host shown the reported viewport: a button is activated exactly by a primary release over it whose last relevant input was a primary press over it that began a contact at both ends |
| ContactPath.TrackerOfMessages | src/net/mod.rs:673-683 | The host's tracker in the joint model is the one the messages actually sent produce: a viewport at first and whenever it changes, sizes that share a viewport sending none, and the remote events |
| ContactPath.TrackerIdle | src/app.rs:127-166 | The host has a contact outstanding exactly when the last thing it was told, a remote event or a change of viewport, is a press |
| Raster.EdgesAreBoundary | tools/paperspoon/src/mono_renderer.rs:84-104 | On any canvas the edges drawn in saturating arithmetic are the true rectangle's boundary |
| Raster.TextEnds | tools/paperspoon/src/mono_renderer.rs:114-117 | Once the pen has left the canvas nothing more of the text is on it, so the early break loses nothing |
| Raster.TextPixel | tools/paperspoon/src/gray_renderer.rs:97-138 | Which pixels a text inks at any scale: none left of or above its origin; u cells right and v cells below it, exactly where digit 4 - u % 6 of font row v / 2 of glyph u / 6 is set |
| Painting.PaintedDetermines | tools/paperspoon/src/mono_renderer.rs:59-71 | The relation the drawing methods are specified by determines every byte of the result, in both formats |
| Painting.Extended | tools/paperspoon/src/gray_renderer.rs:76-95 | Painting one region and then another paints what they make together on the canvas |
| MonoCanvas.Canvas.SetPixel | tools/paperspoon/src/mono_renderer.rs:59-71 | Sets that pixel and no other bit, and says whether it was on the canvas |
| MonoCanvas.Canvas.Clear | tools/paperspoon/src/mono_renderer.rs:42-57 | Every visible pixel takes the color and the padding stays white |
| MonoCanvas.Canvas.FillRect | tools/paperspoon/src/mono_renderer.rs:73-81 | Exactly the rectangle, as far as it is on the canvas |
| MonoCanvas.Canvas.OutlineRect | tools/paperspoon/src/mono_renderer.rs:84-104 | Exactly the boundary of the true rectangle, as far as it is on the canvas |
| MonoCanvas.Canvas.DrawText | tools/paperspoon/src/mono_renderer.rs:109-144 | Exactly the unclipped ideal raster of the text, as far as it is on the canvas, rows above the top skipped, with no overflow |
| MonoCanvas.Canvas.IntoFrame | tools/paperspoon/src/mono_renderer.rs:147-149 | After any sequence of drawing calls freezing the canvas never fails |
| MonoCanvas.PaintedStaysValid | tools/paperspoon/src/mono_renderer.rs:59-71 | Drawing never stains the padding of a valid picture |
| GrayCanvas.NewCanvas | tools/paperspoon/src/gray_renderer.rs:19-47 | Succeeds exactly for nonempty sizes whose frame fits one message, memory granted; no sum or product overflows on either target |
| GrayCanvas.Canvas.FillRect | tools/paperspoon/src/gray_renderer.rs:65-74 | Exactly the rectangle, as far as it is on the canvas |
| GrayCanvas.Canvas.OutlineRect | tools/paperspoon/src/gray_renderer.rs:76-95 | Exactly the boundary of the true rectangle, as far as it is on the canvas, also when it is one pixel wide |
| GrayCanvas.Canvas.DrawText | tools/paperspoon/src/gray_renderer.rs:97-138 | At every origin and scale, zero counting as one, exactly the ideal raster as far as it is on the canvas, with no 32-bit overflow |
| Mailbox.FrameMailbox.SetViewport | src/net/mod.rs:150-160 | A pending frame that no longer fits is dropped |
| Mailbox.FrameMailbox.Publish | src/net/mod.rs:162-173 | A frame that fits replaces the pending one; any other is refused |
| Mailbox.PendingIsLatest | src/net/mod.rs:149-182 | A pending frame fits the mailbox's viewport, and is pending exactly if it is the latest frame that arrived fitting since the last take and has fitted ever since |
| X11Display.RemoteFrameCache.InvalidateMismatched | src/display/cache.rs:72-81 | Drops the cached frame exactly when its size is not the viewport's |
| X11Display.X11DisplayBackend.constructor | src/x11/backend.rs:26-51 | A display always comes up, with nothing cached; it has an adapter exactly when the server's setup supports one |
| X11Display.X11DisplayBackend.SetDimensions | src/x11/backend.rs:82-96 | Whatever was cached, what stays cached fits the new viewport |
| X11Display.X11DisplayBackend.DisplayRemoteFrame | src/x11/backend.rs:98-166 | A frame is uploaded exactly when it is Mono1, there is an adapter, a request carries one of its rows, and every chunk of its bitmap can be addressed, is sent and accepted, and the flush works; the requests issued are those chunks in their places; the cache changes exactly then, to that bitmap |
| X11Display.X11DisplayBackend.RedrawCachedFrame | src/x11/backend.rs:168-206 | With a cached frame and a cleared viewport the chunks of the cached bitmap are issued in their places, and the redraw succeeds exactly when all are sent, accepted and flushed; otherwise nothing is issued |
| EventLoop.EveryRun | src/x11/events.rs:45-111 | In every run a pending frame matches the mailbox viewport, a polled frame is the latest fitting one published since the take before, and polled and cached frames match the viewport of the display's current dimensions |
| X11Loop.RunLoop | src/x11/events.rs:31-111 | Whatever arrives, whatever events come and whatever the server answers, turn by turn the objects are where the abstract loop is, the frame polled is attempted, and what is cached is redrawn exactly after an exposure or a change of size |
| X11Loop.LoopReaches | src/x11/events.rs:31-111 | Every such sequence of turns is a run of the abstract loop |
| X11Loop.NeverOutOfReach | src/x11/events.rs:31-111 | No upload and no redraw in it ever fails on a coordinate range |
| X11Loop.CachedIsShown | src/x11/events.rs:31-111 | Whenever a frame is cached, the requests of the last upload or redraw that worked put exactly that frame on the window |
| PixelPath.DotOnServer | src/x11/framebuffer.rs:114-156 | An X server reads the canvas's dot from the prepared bitmap |
| PixelPath.DotOnPanel | src/mxcfb/pixels.rs:138-154 | The panel's memory holds the canvas's dot as black or white |
| PixelPath.LevelOnPanel | src/mxcfb/pixels.rs:139-152 | A Gray8 pixel is shown as it is: the panel memory's byte is the frame's byte |
| PixelPath.ArtOnPanel | src/mxcfb/mapped.rs:98-151 | Likewise the strip's: each byte of its artwork in its place |
| PixelPath.LevelsArrive | tools/paperspoon/src/gray_renderer.rs:188-190 | Whatever levels the host's Gray8 canvas holds, once encoded, are read back as they were, and once shown the panel memory's byte at every pixel is the canvas's |
| PixelPath.PanelsAgree | tools/paperspoon/src/mono_renderer.rs:147-149 | Whatever was drawn on the host's Mono1 canvas, once encoded, is read back as it was, and once shown is on both kinds of panel the canvas's dot at every pixel |

## Left out

- Real I/O: sockets, mmap and ioctl, X11 requests, stdin, log files and URL forwarding are byte sequences or arbitrary outcomes.
- Time: connect and write timeouts, retry sleeps, polling intervals and latency fields.
- UDP discovery, nonce generation, configuration, environment and stdin command parsing.
- Now Playing acquisition, JPEG decoding and image resizing: a decoded frame is any valid Gray8 frame of the size asked for.
- The glyph table, Now Playing layout and floating-point progress: the font is a parameter giving seven rows per character.
- ioctl structure layouts, waveform constants, the read-only framebuffer probe, shell scripts and Lua.
- The unsynchronised channel that tells the host's main loop what stdin rendered; it only disables or delays input.
- The artwork of the strip and of its connection indicator: any bytes of the strip's size.
- Title, status and label text of the host's UI, and which diagnostic pattern is drawn: a diagnostic is any valid frame, or none when its size cannot be drawn.
- Failing socket clones: a handle to a stream can always be made.
- KindleNet: the startup thread is reduced to `Promote`, which the main thread performs before it first looks for a connection.
- KindleNetSession.DropCutsEverything: says nothing about a stream still being opened when `Drop` begins, other than that it is never installed.
- HostConnection.CurrentConnection.Interleave: stands for other threads between two lock regions and has no counterpart in the code.
- X11Loop.RunLoop: does not draw the system strip or handle pointers, which the loop interleaves but which touch neither cache nor mailbox; a strip that cannot be drawn ends the loop early, which is a shorter run.
- HostStreams.DeviceReadsStream: says nothing about bytes that the host wrote and the network lost with a broken connection.
- DeviceInput: motion events, and window events other than configure and unmap.
- WireReader: buffering inside `BufReader`; a reader sees all bytes a peer will ever send, front to back.
- GrayCanvas: placing a resized image on the canvas.
