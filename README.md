# Camera device adapters: channel compositor and simulating camera

This project models two camera device adapters of a microscopy control
platform.

**The multi-camera channel compositor (PyCH).** This virtual camera binds
each of its channels to another loaded camera.

- At initialization it builds a table of the known cameras: every loaded
  camera except itself, then an "Empty Channel" sentinel with no device.
- A selection maps each channel to an entry of that table. Changing the
  channel count resizes the selection. Changing a channel's camera rebinds
  it, re-tags the camera it replaces and recomputes the composite geometry.
- A snap clears the snap marks and triggers every selected camera once, even
  when several channels share it.
- The snap then lays each channel's frame into that channel's plane of one
  flat buffer:
  - an empty channel's plane is zeroed;
  - an equal-size frame is copied verbatim;
  - a frame of equal width but another height is copied and the rest of the
    plane zeroed;
  - any other frame is copied row by row, each row cut to the shorter of the
    two row lengths, over a zeroed plane.

**The simulating camera.** This camera's frames come from an image server.

- Its property handlers cover the pixel type (byte depth, bit depth and
  component count) and the bit depth, which can widen an 8-bit pixel type.
  They also cover the CCD size, bounded to [16, 33000], and the region of
  interest.
- It hands each frame to the host's image queue. On an overflow it clears the
  queue and retries once.
- An acquisition thread runs a bounded number of cycles and reports the first
  failure.
- A fetched frame's bytes are copied into the image, at most the image's
  size.

The layout is one module per concern:

- `Options` (an optional value) and `MMDevice` (result codes).
- `Bytes`: byte sequences, the `Overwrite` view of `memset`/`memcpy`, and the
  `Stride` offsets.
- `Decimal`: the decimal text of the channel-index tag.
- `PlaneCopy`: the per-channel copy and the whole composite, as functions and
  as in-place array methods.
- `ChannelMap`: the camera table, composite geometry, tags and trigger pass,
  as functions and lemmas.
- `PyCH`: the device as a class whose methods update its fields and its
  buffer.
- `PixelTypes`: the pixel-format tables.
- `SimulatingCamera`: the overflow policy, the thread loop, and the classes
  `SequenceThread` and `SimCamera`.

The host is abstracted as follows:

- Its callbacks become inputs: the loaded cameras, every camera's geometry
  and frame, what the host's image queue and `PrepareForAcq` return, and the
  fetch response.
- Each cycle's result and the arrival of a Stop during the thread loop are
  functions of the cycle number.
- The property framework is modelled by fields. Each handler receives the
  value it would read from its property, and a field holds the value a
  handler writes back.
- Functions that only read state or define a value (`IsCapturing`, `GetROI`,
  the trigger pass, the composite geometry and image, the format tables)
  carry no contract of their own. The rows marked "definition" below say
  what they model; the lemmas next to them state their properties.

Where the design description and the code disagree, the code is followed:

- The design places new selection slots on the "Empty Channel" sentinel.
  In the code, `vector::resize` sets new slots to entry 0 of the table
  (PyCH.cpp:257-260), so `Resized` does the same.
- The design tags the newly bound camera. The code re-tags the camera being
  replaced, with its old name and the channel index (PyCH.cpp:280-290).
- The design sizes planes by the composite geometry and reallocates only when
  it grows. The code sizes planes by the Width/Height/Bytes properties
  (PyCH.cpp:464) and always frees and recreates the buffer in `OnChannel`
  (PyCH.cpp:312-313).
- The design reports an unknown camera name as an error. The code has no
  error path there (PyCH.cpp:273-275), so the model requires a name from the
  table, which is what the property's allowed values guarantee.

## Model

| member | source | states |
|---|---|---|
| Bytes.Fill | DeviceAdapters/PyCH/PyCH.cpp:477-481 | `memset(p + off, 0, n)`: exactly bytes off..off+n become zero, and every other byte keeps its value |
| Bytes.Copy | DeviceAdapters/PyCH/PyCH.cpp:416-418 | `memcpy(p + off, src, n)`: bytes off..off+n become src, others unchanged |
| Bytes.OverwriteAt | DeviceAdapters/PyCH/PyCH.cpp:411-433 | byte k after an overwrite at off is the new byte inside the written window and the old byte outside it |
| Bytes.StrideIsProduct | DeviceAdapters/PyCH/PyCH.cpp:361 | the offset of plane (or row) k is k times its size |
| Decimal.DecimalRoundTrip | DeviceAdapters/PyCH/PyCH.cpp:289 | the decimal text of the channel index reads back as that index |
| Decimal.NoLeadingZero | DeviceAdapters/PyCH/PyCH.cpp:289 | the printed index has a leading '0' iff it is 0 |
| Decimal.DecimalInjective | DeviceAdapters/PyCH/PyCH.cpp:289 | different channel indices get different index tags |
| PlaneCopy.FrameSize | DeviceAdapters/PyCH/PyCH.cpp:415-418 | a source frame holds width * height * bytes bytes, its image buffer size |
| PlaneCopy.CopyWidth | DeviceAdapters/PyCH/PyCH.cpp:431-432 | the bytes copied per row are the smaller of the destination and source row lengths |
| PlaneCopy.CopiedRowAt | DeviceAdapters/PyCH/PyCH.cpp:426-434 | destination row r, column c, holds source row r's byte c while r is a source row and c within the copied width, else 0 |
| PlaneCopy.RowsImageAll | DeviceAdapters/PyCH/PyCH.cpp:426-434 | every byte (row, column) of the row-by-row image is the source byte at the same row and column inside the copied rectangle, and zero outside |
| PlaneCopy.PlaneImage | DeviceAdapters/PyCH/PyCH.cpp:407-437 | definition: the bytes one channel's plane holds after a snap, by the branch its frame takes |
| PlaneCopy.PlaneImageCases | DeviceAdapters/PyCH/PyCH.cpp:407-437 | a plane's content in each branch: all zero for an empty channel; the source verbatim when width and height match; when only the width matches, the source then zeros up to the plane size; otherwise byte (row, c) of each source row is the source byte for c within the copied width and zero beyond it, and every byte past the source's rows up to planeSize is zero |
| PlaneCopy.CopyChannelPlane | DeviceAdapters/PyCH/PyCH.cpp:408-436 | copying one channel's plane writes exactly that plane's bytes with its image, and no other byte changes |
| PlaneCopy.CopyRows | DeviceAdapters/PyCH/PyCH.cpp:426-434 | the zero-then-copy-each-row loop leaves the plane equal to the image with every source row copied and the rest of planeSize zero |
| PlaneCopy.CopyRow | DeviceAdapters/PyCH/PyCH.cpp:428-433 | one row's `memcpy` leaves the buffer equal to its old contents with the row's bytes written at the destination offset, which RowStep shows is the image extended by row r |
| PlaneCopy.RowStep | DeviceAdapters/PyCH/PyCH.cpp:428-433 | the source and destination windows of row r's copy stay inside their buffers, and the copy adds row r to the image |
| PlaneCopy.AllFitAt | DeviceAdapters/PyCH/PyCH.cpp:415-433 | the all-sources-fit condition gives each channel's source room in its plane |
| PlaneCopy.CompositeImage | DeviceAdapters/PyCH/PyCH.cpp:407-437 | definition: the planes of all channels laid side by side, in channel order |
| PlaneCopy.CompositePlane | DeviceAdapters/PyCH/PyCH.cpp:360-362 | slice Stride(i)..Stride(i+1) of the composite, that is channel i's GetImageBuffer plane, is channel i's plane image |
| PlaneCopy.CompositeStep | DeviceAdapters/PyCH/PyCH.cpp:407-437 | copying channel i on top of channels 0..i-1 gives channels 0..i, with the later planes still holding their old bytes |
| PlaneCopy.CopyComposite | DeviceAdapters/PyCH/PyCH.cpp:407-437 | after the copy loop the buffer is the composite image, whatever it held before |
| ChannelMap.KnownCameras | DeviceAdapters/PyCH/PyCH.cpp:199-209 | the table's cameras are drawn from the loaded ones and each is non-null and not this device |
| ChannelMap.KnownCamerasMembers | DeviceAdapters/PyCH/PyCH.cpp:199-209 | a camera is in the table iff it is loaded, not null and not this device |
| ChannelMap.KnownCamerasDistinct | DeviceAdapters/PyCH/PyCH.cpp:199-213 | the table's devices, with the null sentinel appended, are pairwise distinct |
| ChannelMap.Resized | DeviceAdapters/PyCH/PyCH.cpp:259 | `vector::resize(n)`: length n, the first min(old, n) slots kept, new slots 0 |
| ChannelMap.FirstIndex | DeviceAdapters/PyCH/PyCH.cpp:273 | `std::find`: the index of the first entry with that name |
| ChannelMap.CompositeGeometry | DeviceAdapters/PyCH/PyCH.cpp:294-309 | definition: the properties' geometry, widened by every selected non-null camera's, one channel at a time |
| ChannelMap.CompositeGeometryBounds | DeviceAdapters/PyCH/PyCH.cpp:294-309 | the composite width, height and bytes are at least the properties and at least every selected non-null camera's |
| ChannelMap.CompositeGeometryAttained | DeviceAdapters/PyCH/PyCH.cpp:294-309 | each composite dimension equals the property or some selected camera's dimension, so it is the least upper bound |
| ChannelMap.ChannelTags | DeviceAdapters/PyCH/PyCH.cpp:282-289 | re-tagging makes four calls, all on that camera: the two removes first |
| ChannelMap.ChannelTagsValues | DeviceAdapters/PyCH/PyCH.cpp:286-289 | the added tags are the old camera name and the channel index in decimal, which parses back to the index, both owned by this device |
| ChannelMap.TriggerPass | DeviceAdapters/PyCH/PyCH.cpp:376-400 | definition: the snap marks and the cameras triggered after the first k channels; its length ensures the marks keep one slot per table entry |
| ChannelMap.TriggerSnapState | DeviceAdapters/PyCH/PyCH.cpp:376-400 | after the pass, an entry is marked iff its device is non-null and some channel selects it |
| ChannelMap.TriggeredMarked | DeviceAdapters/PyCH/PyCH.cpp:385-400 | a camera is triggered iff its entry is marked |
| ChannelMap.TriggeredSelected | DeviceAdapters/PyCH/PyCH.cpp:385-400 | a camera is triggered iff some channel is bound to it, so the sentinel never is |
| ChannelMap.TriggeredDistinct | DeviceAdapters/PyCH/PyCH.cpp:385-400 | no camera is triggered twice |
| ChannelMap.TriggeredCount | DeviceAdapters/PyCH/PyCH.cpp:385-400 | at most one trigger per channel |
| ChannelMap.TriggeredOnce | DeviceAdapters/PyCH/PyCH.cpp:385-400 | each camera is triggered exactly once if some channel selects it, however many do, and otherwise never |
| PyCH.InitialSelectionAsWritten | DeviceAdapters/PyCH/PyCH.cpp:217-223 | the selection loop as written: defined only when the selection already has channelCount slots |
| PyCH.DefaultInitializeOutOfRange | DeviceAdapters/PyCH/PyCH.cpp:217-223 | with the constructed empty selection and one channel, the loop writes out of range |
| PyCH.InitialSelection | DeviceAdapters/PyCH/PyCH.cpp:217-223 | one slot per channel, each on the sentinel |
| PyCH.InitialSelectionValid | DeviceAdapters/PyCH/PyCH.cpp:211-223 | every initial slot names a table entry, and that entry is the null sentinel |
| PyCH.SnapTargetAsWritten | DeviceAdapters/PyCH/PyCH.cpp:407-411 | as written: channel c's write goes to planeSize * c bytes past the buffer when there is one, and through the null pointer otherwise |
| PyCH.SnapAfterCorrectedInitialize | DeviceAdapters/PyCH/PyCH.cpp:196-230 | the null write is latent: with Initialize corrected to size the selection, a device constructed and initialized with no ChannelCount or Camera N write has one selected channel and no buffer, so the snap as written would write channel 0 through the null pointer |
| PyCH.PlanesDisjoint | DeviceAdapters/PyCH/PyCH.cpp:360-362 | plane i ends before a later plane j starts, and the last plane ends inside the buffer |
| PyCH.PlanesCover | DeviceAdapters/PyCH/PyCH.cpp:360-362 | every byte of the buffer lies in some channel's plane |
| PyCH.PyCHCamera.constructor | DeviceAdapters/PyCH/PyCH.cpp:155-168 | Width 512, Height 512, Bytes 1, one channel, zero composite, no buffer, empty tables |
| PyCH.PyCHCamera.SetGeometryProperties | DeviceAdapters/PyCH/PyCH.cpp:156-159 | the host writing the Width, Height and Bytes properties keeps every invariant |
| PyCH.PyCHCamera.KnownTable | DeviceAdapters/PyCH/PyCH.cpp:199-209 | the push_back loop builds the names and devices of the known cameras, in order |
| PyCH.PyCHCamera.Initialize | DeviceAdapters/PyCH/PyCH.cpp:196-223 | names and devices are the known cameras plus "Empty Channel"/null at the last index; snapstate is all clear with the same length; every channel is on the last index; the table invariant holds |
| PyCH.PyCHCamera.CreateBuffers | DeviceAdapters/PyCH/PyCH.cpp:463-468 | planeSize = Width * Height * Bytes, and a new buffer of planeSize * channelCount bytes |
| PyCH.PyCHCamera.FreeBuffers | DeviceAdapters/PyCH/PyCH.cpp:470-475 | the buffer is null afterwards, so a second call changes nothing |
| PyCH.PyCHCamera.Empty | DeviceAdapters/PyCH/PyCH.cpp:477-481 | every byte of the buffer is zero, if there is a buffer |
| PyCH.PyCHCamera.OnChannelCount | DeviceAdapters/PyCH/PyCH.cpp:250-264 | the same count changes nothing; a new count resizes the selection (kept prefix, new slots 0) and reallocates planeSize * count bytes |
| PyCH.PyCHCamera.SelectedDevices | DeviceAdapters/PyCH/PyCH.cpp:301-302 | definition: the device each channel is bound to, in channel order |
| PyCH.PyCHCamera.SelectedDevicesTriggered | DeviceAdapters/PyCH/PyCH.cpp:385-400 | a device is bound to some channel iff the snap's trigger pass triggers it, and a channel has no device iff it is bound to the "Empty Channel" sentinel |
| PyCH.PyCHCamera.ChannelName | DeviceAdapters/PyCH/PyCH.cpp:328-331 | GetChannelName returns a name from the camera table |
| PyCH.PyCHCamera.ComputeComposite | DeviceAdapters/PyCH/PyCH.cpp:294-309 | the max loop computes the composite geometry of the current selection |
| PyCH.PyCHCamera.Rebind | DeviceAdapters/PyCH/PyCH.cpp:273-292 | channel c moves to the first entry of the name and nothing else in the selection changes; the replaced camera, if it is another non-null device, gets the four tag calls with its old name and c; otherwise there are no tag calls |
| PyCH.PyCHCamera.Recompose | DeviceAdapters/PyCH/PyCH.cpp:294-313 | the composite geometry is recomputed and a fresh buffer of planeSize * channelCount bytes allocated |
| PyCH.PyCHCamera.OnChannel | DeviceAdapters/PyCH/PyCH.cpp:266-317 | after setting channel c: the selection, the tag log, the composite geometry and the buffer as above, and reading channel c back gives the name set |
| PyCH.PyCHCamera.CurrentPlane | DeviceAdapters/PyCH/PyCH.cpp:413-432 | definition: the copy branches compare against the composite width and height, the row stride comes from the properties, the plane size is planeSize |
| PyCH.PyCHCamera.CurrentPlaneRows | DeviceAdapters/PyCH/PyCH.cpp:426-433 | a destination row is Width * Bytes bytes; while planeSize is the one computed from the current properties, Height rows fill the plane exactly and every frame with at most Height rows fits the row-by-row copy |
| PyCH.PyCHCamera.Sources | DeviceAdapters/PyCH/PyCH.cpp:408-409 | definition: each channel copies from its bound camera's frame, or from nothing for the sentinel |
| PyCH.PyCHCamera.SourcesTriggered | DeviceAdapters/PyCH/PyCH.cpp:385-409 | one frame per channel; a channel copies from nothing iff it is bound to the sentinel, and otherwise from the frame of a camera the snap triggered |
| PyCH.PyCHCamera.ImageBufferOffset | DeviceAdapters/PyCH/PyCH.cpp:360-362 | GetImageBuffer(c) is planeSize * c bytes into the buffer |
| PyCH.PyCHCamera.ChannelImage | DeviceAdapters/PyCH/PyCH.cpp:360-362 | the plane of channel c has planeSize bytes, within the buffer |
| PyCH.PyCHCamera.ImageBufferSize | DeviceAdapters/PyCH/PyCH.cpp:324 | GetImageBufferSize is one plane, and the buffer holds channelCount of them |
| PyCH.PyCHCamera.BitDepth | DeviceAdapters/PyCH/PyCH.cpp:333 | definition: eight bits per byte of the Bytes property |
| PyCH.PyCHCamera.TriggerCameras | DeviceAdapters/PyCH/PyCH.cpp:376-400 | the two loops leave the snapstate and trigger sequence of the trigger pass |
| PyCH.PyCHCamera.SnapImage | DeviceAdapters/PyCH/PyCH.cpp:375-443 | the trigger pass as above; with a buffer, the whole buffer equals the composite image and each channel's GetImageBuffer plane is that channel's plane image; with none, nothing is written (the corrected half of the Findings row) |
| PixelTypes.ParseName | DeviceAdapters/SimulatingCamera/SimulatingCamera.cpp:711-755 | the handler's name comparisons recognise exactly the five format names |
| PixelTypes.FormatLayout | DeviceAdapters/SimulatingCamera/SimulatingCamera.cpp:711-748 | every format's pixel splits into whole-byte components wide enough for its bit depth |
| PixelTypes.PixelTypeByteDepth | DeviceAdapters/SimulatingCamera/SimulatingCamera.cpp:973-996 | definition: ResizeImageBuffer's chain of name comparisons giving the byte depth |
| PixelTypes.PixelTypeByteDepthAgrees | DeviceAdapters/SimulatingCamera/SimulatingCamera.cpp:973-996 | ResizeImageBuffer's byte depth is the format's byte depth, 0 for an unknown name |
| PixelTypes.ReportedName | DeviceAdapters/SimulatingCamera/SimulatingCamera.cpp:756-788 | a read reports a format name, or leaves the property as it was |
| PixelTypes.ReportedNameRoundTrip | DeviceAdapters/SimulatingCamera/SimulatingCamera.cpp:711-788 | a read after setting a format reports that format |
| PixelTypes.ChooseBitDepth | DeviceAdapters/SimulatingCamera/SimulatingCamera.cpp:813-855 | definition: the BitDepth handler's switch to bytes per component, stored bit depth and result |
| PixelTypes.ChooseBitDepthSpec | DeviceAdapters/SimulatingCamera/SimulatingCamera.cpp:813-855 | exactly 8, 10, 12, 14, 16 and 32 are accepted and stored with the fewest whole bytes that hold them; any other value stores 8 in one byte with ERR_UNKNOWN_MODE |
| PixelTypes.Promote | DeviceAdapters/SimulatingCamera/SimulatingCamera.cpp:856-893 | definition: the BitDepth handler's widening of the pixel type and its choice of bytes per pixel |
| PixelTypes.PromoteSpec | DeviceAdapters/SimulatingCamera/SimulatingCamera.cpp:856-893 | only an 8bit type changes: to 16bit for 2 bytes per component, to 32bit for 4, and to nothing else; the bytes per pixel are always those of the resulting type |
| PixelTypes.ChoosePixelType | DeviceAdapters/SimulatingCamera/SimulatingCamera.cpp:704-755 | definition: the PixelType handler's outcome for a name, with unknown names falling back to 8bit |
| PixelTypes.ChoosePixelTypeSpec | DeviceAdapters/SimulatingCamera/SimulatingCamera.cpp:704-755 | a known name is applied with status OK and reads back as itself; an unknown one behaves as 8bit with ERR_UNKNOWN_MODE |
| SimulatingCamera.InsertCalls | DeviceAdapters/SimulatingCamera/SimulatingCamera.cpp:515-526 | definition: the host calls InsertImage makes and the result it reports, given what the host's inserts return |
| SimulatingCamera.InsertPolicy | DeviceAdapters/SimulatingCamera/SimulatingCamera.cpp:515-526 | if the first insert overflows and the acquisition does not stop on overflow, there is one clear and then one unprocessed retry of the same pixels and geometry, and the retry's result is returned; otherwise one insert and its result |
| SimulatingCamera.SvcFrom | DeviceAdapters/SimulatingCamera/SimulatingCamera.cpp:641-653 | the do-while runs at least one cycle, returns the last cycle's result, and leaves the counter at runs or runs - 1 |
| SimulatingCamera.SvcAllOk | DeviceAdapters/SimulatingCamera/SimulatingCamera.cpp:641-653 | with every cycle OK and no stop, exactly max(numImages, 1) cycles run and OK is returned |
| SimulatingCamera.SvcFirstFailure | DeviceAdapters/SimulatingCamera/SimulatingCamera.cpp:641-653 | every cycle before the last was OK and unstopped, so the result is the first failure or OK; a failure or a stop ends the loop without counting |
| SimulatingCamera.FetchedImage | DeviceAdapters/SimulatingCamera/SimulatingCamera.cpp:1043-1049 | definition: the image with the response body copied over its start, at most the image's size |
| SimulatingCamera.FetchedImageSpec | DeviceAdapters/SimulatingCamera/SimulatingCamera.cpp:1043-1049 | exactly the first min(body size, image size) bytes are overwritten with the body's, and the rest keep their value |
| SimulatingCamera.SequenceThread.constructor | DeviceAdapters/SimulatingCamera/SimulatingCamera.cpp:587-597 | the thread starts with counter 0 and stopped |
| SimulatingCamera.SequenceThread.Start | DeviceAdapters/SimulatingCamera/SimulatingCamera.cpp:606-619 | numImages stored, counter 0, not stopped |
| SimulatingCamera.SequenceThread.IsStopped | DeviceAdapters/SimulatingCamera/SimulatingCamera.cpp:621-624 | definition: the thread's stop flag |
| SimulatingCamera.SequenceThread.Stop | DeviceAdapters/SimulatingCamera/SimulatingCamera.cpp:601-604 | stopped, and nothing else changes |
| SimulatingCamera.SequenceThread.Svc | DeviceAdapters/SimulatingCamera/SimulatingCamera.cpp:641-667 | the loop runs the cycles, leaves the counter and returns the result SvcFrom gives; on exit the thread is stopped and the camera notified exactly once |
| SimulatingCamera.SimCamera.constructor | DeviceAdapters/SimulatingCamera/SimulatingCamera.cpp:72-93 | the constructor's fields followed by the defaults Initialize sets (SimulatingCamera.cpp lines 150-207): bit depth 8, ROI origin 0, CCD 512 x 512, no stop on overflow, one component, PixelType 8bit, a 512 x 512 x 1 image, thread stopped |
| SimulatingCamera.SimCamera.IsCapturing | DeviceAdapters/SimulatingCamera/SimulatingCamera.cpp:566-568 | definition: an acquisition runs while the thread is not stopped |
| SimulatingCamera.SimCamera.ResizeImage | DeviceAdapters/SimulatingCamera/SimulatingCamera.cpp:715 | ImgBuffer::Resize: the image gets the given geometry and a pixel array of that size |
| SimulatingCamera.SimCamera.ResizeImageBuffer | DeviceAdapters/SimulatingCamera/SimulatingCamera.cpp:961-999 | the image becomes CCD X x CCD Y with the pixel type's byte depth, 0 if the name is unknown |
| SimulatingCamera.SimCamera.OnPixelTypeSet | DeviceAdapters/SimulatingCamera/SimulatingCamera.cpp:699-755 | busy and nothing changed while capturing; otherwise components, byte depth, bit depth, property and status are the format table's, the size is kept, and a read reports the stored property |
| SimulatingCamera.SimCamera.OnPixelTypeGet | DeviceAdapters/SimulatingCamera/SimulatingCamera.cpp:756-790 | the property becomes the reported name, or keeps its value when there is none |
| SimulatingCamera.SimCamera.OnBitDepthSet | DeviceAdapters/SimulatingCamera/SimulatingCamera.cpp:799-895 | busy and nothing changed while capturing; otherwise the chosen bit depth and status, the promoted pixel type, and an image of the promoted byte depth with its size kept |
| SimulatingCamera.SimCamera.OnCameraCCDXSize | DeviceAdapters/SimulatingCamera/SimulatingCamera.cpp:909-929 | outside [16, 33000]: DEVICE_ERR and nothing changes; the current value: nothing changes; otherwise the CCD width is set and the image resized to (X, Y) keeping its depth |
| SimulatingCamera.SimCamera.OnCameraCCDYSize | DeviceAdapters/SimulatingCamera/SimulatingCamera.cpp:931-951 | the same for the CCD height |
| SimulatingCamera.SimCamera.GetROI | DeviceAdapters/SimulatingCamera/SimulatingCamera.cpp:364-373 | definition: the ROI origin and the image's width and height |
| SimulatingCamera.SimCamera.SetROI | DeviceAdapters/SimulatingCamera/SimulatingCamera.cpp:341-374 | a zero size restores the full CCD frame at origin (0, 0) with the pixel type's depth; any other size makes GetROI report (x, y, xSize, ySize), keeping the depth |
| SimulatingCamera.SimCamera.ClearROI | DeviceAdapters/SimulatingCamera/SimulatingCamera.cpp:379-387 | GetROI reports the full CCD frame at origin (0, 0) |
| SimulatingCamera.SimCamera.ImageBufferSize | DeviceAdapters/SimulatingCamera/SimulatingCamera.cpp:322-325 | GetImageBufferSize, width * height * depth, is the pixel array's size |
| SimulatingCamera.SimCamera.InsertImage | DeviceAdapters/SimulatingCamera/SimulatingCamera.cpp:486-527 | the counter goes up by one whatever the outcome, and the host sees exactly the calls of the overflow policy, each with the current pixels and geometry, whose result is returned |
| SimulatingCamera.SimCamera.FetchImage | DeviceAdapters/SimulatingCamera/SimulatingCamera.cpp:1043-1049 | a successful response overwrites the image with that response's fetched image; a failed one leaves it untouched |
| SimulatingCamera.SimCamera.RunSequenceOnThread | DeviceAdapters/SimulatingCamera/SimulatingCamera.cpp:533-564 | one cycle fetches the image, then hands exactly the fetched pixels to the host by the overflow policy's calls, and reports the insert's result; the counter goes up by one |
| SimulatingCamera.SimCamera.StartSequenceAcquisition | DeviceAdapters/SimulatingCamera/SimulatingCamera.cpp:467-481 | busy and nothing changed while capturing; a host preparation failure is returned with nothing changed; otherwise both counters are 0, the thread runs numImages, and capturing is true |
| SimulatingCamera.SimCamera.StopSequenceAcquisition | DeviceAdapters/SimulatingCamera/SimulatingCamera.cpp:452-460 | no longer capturing; stopping a stopped thread changes nothing |

## Left out

- The embedded Python interpreter: running the script, binding the buffer,
  executing after a snap, and the dtype conversion. It is a foreign
  interpreter, and the model treats those calls as having no effect.
- Threads and locks:
  - The per-camera snap threads are modelled as sequential triggering: the
    `frameOf` input of SnapImage is what each camera holds once its snap has
    finished, so the model assumes every triggered snap is complete before
    the plane copy. The source does not ensure this. Its clean-up loop
    (PyCH.cpp:402-404) deletes `cameraThreads[c]` c times: a null slot, or
    one past the end of the vector when every channel started a thread. The
    started threads are never deleted, and their destructor is the only
    place that waits for them. So the source never joins the snap threads,
    and the copy at PyCH.cpp:407-437 can read a camera's buffer while that
    camera's snap is still running. The race and the invalid deletes are
    not modelled.
  - The guard locks are left out.
  - The thread objects, `Suspend`/`Resume`, and waiting for the thread in
    `StopSequenceAcquisition` are also left out.
  - A Stop that arrives from another thread during `Svc` is the `stopAt`
    input.
- The property framework:
  - Creating properties, `SetAllowedValues` and `GetProperty` are not
    modelled: a handler receives the value directly.
  - The allowed-value lists are not enforced. The handlers' own checks are
    modelled.
  - SimulatingCamera.SimCamera.OnBitDepthSet: does not model the property
    framework's re-entry when it widens the pixel type. The model stores the
    new name and resizes the image, and components and bit depth stay as
    `OnBitDepth` leaves them. In the source, `SetProperty(PixelType,
    "16bit")` (SimulatingCamera.cpp:865) runs the PixelType handler, which
    sets the bit depth to 16, so a bit depth of 10, 12 or 14 on an 8bit
    type ends as 16. "32bit" is not among the allowed values (line 159 is
    commented out), so `SetProperty` at line 870 is refused and the property
    stays 8bit, while the model stores "32bit".
  - `OnCameraCCDXSize`/`OnCameraCCDYSize` leave the property holding a
    rejected value. Only the size fields are modelled.
  - SimulatingCamera.SimCamera.OnPixelTypeSet: on the busy path the
    framework has already stored the new name in the PixelType property
    before the handler refuses it (SimulatingCamera.cpp:706-707). The
    model's `pixelType` field is the handler's view and stays unchanged.
  - The getter branches that only copy a field into the property (ChannelCount,
    Channel, BitDepth, CCD sizes, ScriptPath, ChannelDevice) are left out.
- `OnScript`, `OnScriptChannelDevice`, `OnURL` and `OnChannelDevice` are left
  out, because they only hand strings to the interpreter or the HTTP query.
- PyCH.PyCHCamera.OnChannel: requires `c < channelCount` and a name from the
  table. The source has no error path for either, and a name outside the
  table would index out of range (PyCH.cpp:273-276); the property's allowed
  values keep the name inside the table.
- PyCH.PyCHCamera.Initialize: requires that the host hands out a distinct
  device for each loaded camera label, which `GetDevice` does.
- PyCH.PyCHCamera.SnapImage: when there is a buffer, requires every bound
  camera's frame to fit its plane (`AllFit`). Each case excludes a write
  the source makes outside the plane or the camera's buffer:
  - an equal-size frame has exactly planeSize bytes (the source asserts
    this);
  - an equal-width frame has at most planeSize bytes;
  - otherwise the frame's rows, each Width * Bytes bytes apart, end inside
    planeSize. This also excludes a last row whose copied bytes would end
    inside the plane but whose full destination row would not.

  planeSize may be stale after the host writes Width, Height or Bytes, and
  the snap is modelled with the stale value. The fit condition then
  excludes only a grown geometry, where the source's row copies run past
  the plane. The frames are required to be well formed (width * height *
  bytes bytes, which is what GetImageBufferSize reports). A snap with no
  buffer skips the copy (see Findings).
- PyCH.PyCHCamera.constructor: `planeSize_` starts uninitialized in the
  source. The model starts it at 0, with no buffer.
- PyCH.PyCHCamera.CreateBuffers: allocation failure is not modelled, and the
  new buffer's bytes are unspecified.
- The source's integers are `size_t`, `long` and `unsigned`. The model uses
  unbounded naturals: `atoi` of a negative property, unsigned wrap-around of
  plane sizes, and the `(int)` row counter are not modelled.
- `StartSequenceAcquisition(interval)`, which passes `LONG_MAX` images, is
  left out. `LONG_MAX` depends on the platform; the numImages overload is
  modelled.
- Timing and floating point are left out: exposure, readout time, the
  busy-wait pacing in `RunSequenceOnThread`, the thread's elapsed times and the
  stage positions.
- The HTTP request and its query string are the `body` input of
  SimulatingCamera.SimCamera.FetchImage (None for a failed response).
- Metadata serialisation, logging, module registration and `OnThreadExiting`'s
  call to the host are left out. The exit notice is counted.
- The constant getters and no-op setters of PyCH are left out: binning,
  exposure, `SetROI`/`ClearROI`, its `GetROI` and sequenceability.
  `GetBinning`/`SetBinning`/exposure of the simulating camera are left out
  too.
- The simulating camera's snap (`SnapImage`) and its trigger-device branch
  (SimulatingCamera.cpp:537-543) are left out. `triggerDevice_` is always
  empty. A snap is a fetch, which `FetchImage` models.
- SimulatingCamera.SimCamera.ResizeImage: the pixel values after
  `ImgBuffer::Resize` are not specified. ImgBuffer is not part of this model.
- SimulatingCamera.SequenceThread.constructor: does not state `numImages`,
  because `default_numImages` comes from the header, and SimulatingCamera.h
  is not part of this model. The model starts it at 1, and `Start` always
  overwrites it.
- DeviceAdapters/PyCH/PyCH.h is not part of this model. The PyCH fields
  follow the members that PyCH.cpp uses.

## Findings

| source | as written | input that shows it | evidently intended | confidence | as-written member | corrected member |
|---|---|---|---|---|---|---|
| DeviceAdapters/PyCH/PyCH.cpp:407-411 | `SnapImage` writes each channel's plane through `GetImageBuffer(i)`, that is `buffer_ + planeSize_ * i`, without checking `buffer_`. `buffer_` stays NULL until a ChannelCount change or a Camera N write allocates it. As written this is latent: `selectedCamera_` is sized only at line 259, right before `CreateBuffers`, so a NULL buffer comes with an empty selection and the plane loop, which runs over the selection, does nothing | once `Initialize` is corrected as in the next row, a device constructed and initialized with no such write, then snapped: one selected channel, `buffer_` NULL, and the memset at line 411 writes through it | a snap with no buffer skips the plane copy, as `Empty` does (PyCH.cpp:477-481) | not executed | PyCH.SnapAfterCorrectedInitialize | PyCH.PyCHCamera.SnapImage |
| DeviceAdapters/PyCH/PyCH.cpp:217-223 | `Initialize` writes `selectedCamera_[i]` for every channel, but nothing sizes `selectedCamera_` first | a device initialized without a prior ChannelCount change: the selection is empty and channelCount is 1, so slot 0 is written out of range | the selection holds one slot per channel, each on the "Empty Channel" sentinel | not executed | PyCH.DefaultInitializeOutOfRange | PyCH.InitialSelection |
