/**
 * The multi-camera compositor device: a virtual camera that binds each of
 * its channels to one loaded camera, snaps every bound camera once and lays
 * their images one plane per channel into a single flat buffer.
 */
module PyCH {
  import opened Bytes
  import opened Options
  import opened MMDevice
  import opened PlaneCopy
  import opened ChannelMap

  /** The selection Initialize leaves as the code is written: every one of
      the first count slots is set to the sentinel's index, and a slot past
      the end of the vector is an out-of-range write (None). */
  function InitialSelectionAsWritten(sel: seq<nat>, count: nat, sentinel: nat): (r: Option<seq<nat>>)
    ensures r.Some? <==> count <= |sel|
    ensures r.Some? ==>
      && |r.value| == |sel|
      && (forall i :: 0 <= i < count ==> r.value[i] == sentinel)
      && (forall i :: count <= i < |sel| ==> r.value[i] == sel[i])
  {
    if count <= |sel| then Some(seq(|sel|, i requires 0 <= i < |sel| => if i < count then sentinel else sel[i]))
    else None
  }

  /** A freshly constructed device has an empty selection and one channel, so
      an Initialize that was not preceded by a change of ChannelCount writes
      past the end of the selection. */
  lemma DefaultInitializeOutOfRange(sentinel: nat)
    ensures InitialSelectionAsWritten([], 1, sentinel) == None
  {
  }

  /** The selection Initialize evidently intends: one slot per channel, each
      bound to the "Empty Channel" sentinel. */
  function InitialSelection(count: nat, sentinel: nat): (r: seq<nat>)
    ensures |r| == count && forall i :: 0 <= i < count ==> r[i] == sentinel
  {
    seq(count, _ => sentinel)
  }

  /** Every slot of the intended initial selection names the sentinel of a
      table whose last entry is the sentinel, whatever the earlier size. */
  lemma InitialSelectionValid(devices: seq<Option<DeviceId>>, count: nat)
    requires |devices| > 0
    ensures ValidSelection(devices, InitialSelection(count, |devices| - 1))
    ensures var sel := InitialSelection(count, |devices| - 1);
      forall i :: 0 <= i < |sel| ==> devices[sel[i]] == devices[|devices| - 1]
  {
  }

  /** The planes GetImageBuffer hands out do not overlap: plane i ends no
      later than a later plane j starts, and the last plane ends inside the
      buffer of planeSize * channelCount bytes. */
  lemma PlanesDisjoint(planeSize: nat, channelCount: nat, i: nat, j: nat)
    requires i < j < channelCount
    ensures Stride(i, planeSize) + planeSize <= Stride(j, planeSize)
    ensures Stride(j, planeSize) + planeSize <= planeSize * channelCount
  {
    StrideMonotone(i + 1, j, planeSize);
    StrideMonotone(j + 1, channelCount, planeSize);
    StrideIsProduct(channelCount, planeSize);
  }

  /** Every byte of the buffer lies in some channel's plane. */
  lemma {:induction false} PlanesCover(planeSize: nat, channelCount: nat, k: nat)
    requires k < Stride(channelCount, planeSize)
    ensures exists c :: 0 <= c < channelCount && Stride(c, planeSize) <= k < Stride(c, planeSize) + planeSize
    decreases channelCount
  {
    if k < Stride(channelCount - 1, planeSize) {
      PlanesCover(planeSize, channelCount - 1, k);
    } else {
      assert Stride(channelCount - 1, planeSize) <= k < Stride(channelCount - 1, planeSize) + planeSize;
    }
  }

  /** Where SnapImage's write for channel c lands as the code is written:
      GetImageBuffer(c), planeSize bytes per channel past the buffer, with no
      check that a buffer exists; None is a write through the null pointer. */
  function SnapTargetAsWritten(hasBuffer: bool, planeSize: nat, c: nat): (target: Option<nat>)
    ensures target.None? <==> !hasBuffer
    ensures target.Some? ==> target.value == Stride(c, planeSize)
  {
    StrideIsProduct(c, planeSize);
    if hasBuffer then Some(planeSize * c) else None
  }

  class PyCHCamera {
    /** This device's own handle (GetDevice returns it for its own label). */
    const self: DeviceId
    /** This device's label, the owner of the tags it adds. */
    const deviceLabel: string

    /** The Width, Height and Bytes integer properties (writable, no handler). */
    var propWidth: nat
    var propHeight: nat
    var propBytes: nat

    var channelCount: nat
    /** The composite width_, height_ and bytes_ computed by OnChannel. */
    var width: nat
    var height: nat
    var bytes: nat
    var planeSize: nat
    /** buffer_: planeSize bytes per channel, or null. */
    var buffer: array?<byte>

    var cameraNames: seq<string>
    var cameraDevices: seq<Option<DeviceId>>
    var cameraSnapstate: seq<bool>
    var selectedCamera: seq<nat>

    /** The tag calls made on backing cameras, in order. */
    var tagLog: seq<TagCall>

    /** Initialize has built the camera table (it always ends with the sentinel). */
    predicate Initialized()
      reads this`cameraDevices
    {
      |cameraDevices| > 0
    }

    /** The camera table after Initialize: the usable cameras, each a
        distinct device other than this one, then the null sentinel named
        "Empty Channel"; one selection slot per channel, each naming an entry. */
    predicate TableValid()
      reads this`cameraNames, this`cameraDevices, this`selectedCamera, this`channelCount
    {
      && |cameraDevices| > 0 && |cameraNames| == |cameraDevices|
      && cameraNames[|cameraNames| - 1] == EmptyChannel
      && cameraDevices[|cameraDevices| - 1] == None
      && (forall i :: 0 <= i < |cameraDevices| - 1 ==> cameraDevices[i].Some? && cameraDevices[i] != Some(self))
      && DistinctDevices(cameraDevices)
      && |selectedCamera| == channelCount
      && ValidSelection(cameraDevices, selectedCamera)
    }

    /** The buffer, when there is one, holds planeSize bytes per channel. */
    predicate BufferValid()
      reads this`buffer, this`planeSize, this`channelCount
    {
      buffer != null ==> buffer.Length == planeSize * channelCount
    }

    predicate Valid()
      reads this`cameraNames, this`cameraDevices, this`cameraSnapstate, this`selectedCamera, this`channelCount
      reads this`buffer, this`planeSize
    {
      && |cameraNames| == |cameraDevices| == |cameraSnapstate|
      && BufferValid()
      && (Initialized() ==> TableValid())
    }

    constructor(self: DeviceId, deviceLabel: string)
      ensures this.self == self && this.deviceLabel == deviceLabel
      ensures propWidth == 512 && propHeight == 512 && propBytes == 1
      ensures channelCount == 1 && width == 0 && height == 0 && bytes == 0
      ensures buffer == null && planeSize == 0
      ensures cameraNames == [] && cameraDevices == [] && cameraSnapstate == [] && selectedCamera == []
      ensures tagLog == []
      ensures Valid() && !Initialized()
    {
      this.self := self;
      this.deviceLabel := deviceLabel;
      propWidth, propHeight, propBytes := 512, 512, 1;
      channelCount := 1;
      width, height, bytes := 0, 0, 0;
      planeSize := 0;
      buffer := null;
      cameraNames, cameraDevices, cameraSnapstate, selectedCamera := [], [], [], [];
      tagLog := [];
    }

    /** The host writing the Width, Height and Bytes properties. */
    method SetGeometryProperties(w: nat, h: nat, b: nat)
      requires Valid()
      modifies this`propWidth, this`propHeight, this`propBytes
      ensures propWidth == w && propHeight == h && propBytes == b
      ensures Valid()
    {
      propWidth, propHeight, propBytes := w, h, b;
    }

    /** The first loop of Initialize: the name and device of every loaded
        camera that is not null and not this device, in enumeration order. */
    method KnownTable(loaded: seq<LoadedCamera>) returns (names: seq<string>, devices: seq<Option<DeviceId>>)
      ensures names == Names(KnownCameras(loaded, self))
      ensures devices == Devices(KnownCameras(loaded, self))
    {
      names, devices := [], [];
      var i := 0;
      while i < |loaded|
        invariant i <= |loaded|
        invariant names == Names(KnownCameras(loaded[..i], self))
        invariant devices == Devices(KnownCameras(loaded[..i], self))
      {
        assert loaded[..i + 1][..i] == loaded[..i];
        var l := loaded[i];
        if Usable(l, self) {
          names := names + [l.name];
          devices := devices + [l.device];
        }
        i := i + 1;
      }
      assert loaded[..i] == loaded;
    }

    /** Builds the camera table from the loaded cameras and binds every
        channel to the "Empty Channel" sentinel. */
    method Initialize(loaded: seq<LoadedCamera>) returns (status: Status)
      requires Valid() && !Initialized() && DistinctLoaded(loaded)
      modifies this`cameraNames, this`cameraDevices, this`cameraSnapstate, this`selectedCamera
      ensures status == Ok
      ensures cameraNames == Names(KnownCameras(loaded, self)) + [EmptyChannel]
      ensures cameraDevices == Devices(KnownCameras(loaded, self)) + [None]
      ensures cameraSnapstate == seq(|cameraDevices|, _ => false)
      ensures selectedCamera == InitialSelection(channelCount, |cameraDevices| - 1)
      ensures Valid() && Initialized()
    {
      var names, devices := KnownTable(loaded);
      cameraNames := names + [EmptyChannel];
      cameraDevices := devices + [None];
      cameraSnapstate := seq(|cameraDevices|, _ => false);
      KnownCamerasDistinct(loaded, self);

      var sel := Resized(selectedCamera, channelCount);
      var c := 0;
      while c < channelCount
        invariant c <= channelCount == |sel|
        invariant forall k :: 0 <= k < c ==> sel[k] == |cameraDevices| - 1
      {
        sel := sel[c := |cameraDevices| - 1];
        c := c + 1;
      }
      selectedCamera := sel;
      InitialSelectionValid(cameraDevices, channelCount);
      status := Ok;
    }

    /** CreateBuffers: planeSize is Width * Height * Bytes and the buffer
        holds one plane per channel; its bytes are not initialized. */
    method CreateBuffers()
      modifies this`planeSize, this`buffer
      ensures planeSize == propWidth * propHeight * propBytes
      ensures buffer != null && fresh(buffer) && buffer.Length == planeSize * channelCount
    {
      planeSize := propWidth * propHeight * propBytes;
      buffer := new byte[planeSize * channelCount];
    }

    /** FreeBuffers: the buffer is released; releasing none is a no-op. */
    method FreeBuffers()
      modifies this`buffer
      ensures buffer == null
    {
      if buffer != null {
        buffer := null;
      }
    }

    /** Empty: zeroes every plane of the buffer, if there is one. */
    method Empty()
      requires Valid()
      modifies buffer
      ensures buffer != null ==> buffer[..] == Zeros(buffer.Length)
    {
      if buffer != null {
        Fill(buffer, 0, planeSize * channelCount);
        assert buffer[..] == Overwrite(old(buffer[..]), 0, Zeros(buffer.Length));
        assert old(buffer[..])[buffer.Length..] == [];
      }
    }

    /** The ChannelCount action: a new count releases the buffer, resizes the
        selection (new slots bind to table entry 0) and allocates anew. */
    method OnChannelCount(count: nat) returns (status: Status)
      requires Valid()
      modifies this`channelCount, this`selectedCamera, this`planeSize, this`buffer
      ensures status == Ok
      ensures channelCount == count
      ensures count == old(channelCount) ==> buffer == old(buffer) && selectedCamera == old(selectedCamera) && planeSize == old(planeSize)
      ensures count != old(channelCount) ==>
        && selectedCamera == Resized(old(selectedCamera), count)
        && planeSize == propWidth * propHeight * propBytes
        && buffer != null && fresh(buffer) && buffer.Length == planeSize * count
      ensures Valid()
    {
      if count != channelCount {
        FreeBuffers();
        channelCount := count;
        selectedCamera := Resized(selectedCamera, channelCount);
        CreateBuffers();
      }
      status := Ok;
    }

    /** The cameras the channels are bound to, in channel order (the lookup
        cameraDevices_[selectedCamera_[i]]). */
    function SelectedDevices(): seq<Option<DeviceId>>
      requires ValidSelection(cameraDevices, selectedCamera)
      reads this`cameraDevices, this`selectedCamera
    {
      var sel, devices := selectedCamera, cameraDevices;
      seq(|sel|, i requires 0 <= i < |sel| => devices[sel[i]])
    }

    /** The cameras OnChannel's composite and SnapImage's copy consult are the
        cameras a snap triggers: a device is bound to some channel exactly
        when the trigger pass snaps it, and a channel has no camera exactly
        when it is bound to the "Empty Channel" sentinel. */
    lemma SelectedDevicesTriggered()
      requires Valid() && Initialized()
      ensures |SelectedDevices()| == channelCount
      ensures forall d :: Some(d) in SelectedDevices() <==> d in TriggerPass(cameraDevices, selectedCamera, |selectedCamera|).triggered
      ensures forall c :: 0 <= c < channelCount ==> (SelectedDevices()[c].None? <==> selectedCamera[c] == |cameraDevices| - 1)
    {
      var r := SelectedDevices();
      TriggeredSelected(cameraDevices, selectedCamera);
      forall d
        ensures Some(d) in r <==> exists i :: 0 <= i < |selectedCamera| && cameraDevices[selectedCamera[i]] == Some(d)
      {
        if Some(d) in r {
          var i :| 0 <= i < |r| && r[i] == Some(d);
          assert cameraDevices[selectedCamera[i]] == Some(d);
        }
        if i :| 0 <= i < |selectedCamera| && cameraDevices[selectedCamera[i]] == Some(d) {
          assert r[i] == Some(d);
        }
      }
    }

    /** The name of the camera bound to a channel: GetChannelName, and what
        the channel's property reads. */
    function ChannelName(c: nat): (name: string)
      requires Valid() && Initialized() && c < channelCount
      reads this
      ensures name in cameraNames
    {
      cameraNames[selectedCamera[c]]
    }

    /** The composite loop of OnChannel: starting from the Width, Height and
        Bytes properties, the maximum with every selected camera's geometry. */
    method ComputeComposite(geometry: DeviceId -> Geometry) returns (g: Geometry)
      requires ValidSelection(cameraDevices, selectedCamera)
      ensures g == CompositeGeometry(Geometry(propWidth, propHeight, propBytes), SelectedDevices(), geometry)
    {
      var base := Geometry(propWidth, propHeight, propBytes);
      ghost var selected := SelectedDevices();
      g := base;
      var i := 0;
      while i < |selectedCamera|
        invariant i <= |selectedCamera|
        invariant g == CompositeGeometry(base, selected[..i], geometry)
      {
        assert selected[..i + 1][..i] == selected[..i];
        var camera := cameraDevices[selectedCamera[i]];
        if camera.Some? {
          var d := geometry(camera.value);
          g := Geometry(Max(g.width, d.width), Max(g.height, d.height), Max(g.bytes, d.bytes));
        }
        i := i + 1;
      }
      assert selected[..i] == selected;
    }

    /** The rebinding block of OnChannel: when the named camera is another
        device than the one serving channel c, the old camera (if any) is
        re-tagged and the channel is bound to the named entry. */
    method Rebind(c: nat, name: string)
      requires Valid() && Initialized() && c < channelCount && name in cameraNames
      modifies this`selectedCamera, this`tagLog
      ensures selectedCamera == old(selectedCamera)[c := FirstIndex(cameraNames, name)]
      ensures var before := old(cameraDevices[selectedCamera[c]]);
        tagLog == if before != cameraDevices[FirstIndex(cameraNames, name)] && before.Some?
                  then old(tagLog) + ChannelTags(before.value, deviceLabel, old(cameraNames[selectedCamera[c]]), c)
                  else old(tagLog)
      ensures Valid()
    {
      var index := FirstIndex(cameraNames, name);
      var camera := cameraDevices[selectedCamera[c]];
      if camera != cameraDevices[index] {
        if camera.Some? {
          tagLog := tagLog + ChannelTags(camera.value, deviceLabel, cameraNames[selectedCamera[c]], c);
        }
        selectedCamera := selectedCamera[c := index];
      } else {
        // Distinct devices: the same device is the same table entry.
        assert selectedCamera[c] == index;
        assert selectedCamera[c := index] == selectedCamera;
      }
    }

    /** The tail of OnChannel: the composite geometry is recomputed from the
        current selection and the buffer is released and allocated anew. */
    method Recompose(geometry: DeviceId -> Geometry)
      requires Valid() && Initialized()
      modifies this`width, this`height, this`bytes, this`planeSize, this`buffer
      ensures Geometry(width, height, bytes) == CompositeGeometry(Geometry(propWidth, propHeight, propBytes), SelectedDevices(), geometry)
      ensures planeSize == propWidth * propHeight * propBytes
      ensures buffer != null && fresh(buffer) && buffer.Length == planeSize * channelCount
      ensures Valid()
    {
      var g := ComputeComposite(geometry);
      width, height, bytes := g.width, g.height, g.bytes;
      FreeBuffers();
      CreateBuffers();
    }

    /** The channel action: binds channel c to the named camera, hands the
        camera it replaces tags naming its old channel, recomputes the
        composite geometry and reallocates the buffer. */
    method OnChannel(c: nat, name: string, geometry: DeviceId -> Geometry) returns (status: Status)
      requires Valid() && Initialized() && c < channelCount && name in cameraNames
      modifies this`selectedCamera, this`tagLog, this`width, this`height, this`bytes, this`planeSize, this`buffer
      ensures status == Ok
      ensures Valid()
      ensures selectedCamera == old(selectedCamera)[c := FirstIndex(cameraNames, name)]
      ensures ChannelName(c) == name
      ensures var before := old(cameraDevices[selectedCamera[c]]);
        tagLog == if before != cameraDevices[FirstIndex(cameraNames, name)] && before.Some?
                  then old(tagLog) + ChannelTags(before.value, deviceLabel, old(cameraNames[selectedCamera[c]]), c)
                  else old(tagLog)
      ensures Geometry(width, height, bytes) == CompositeGeometry(Geometry(propWidth, propHeight, propBytes), SelectedDevices(), geometry)
      ensures planeSize == propWidth * propHeight * propBytes
      ensures buffer != null && fresh(buffer) && buffer.Length == planeSize * channelCount
    {
      Rebind(c, name);
      Recompose(geometry);
      status := Ok;
    }

    /** The destination plane geometry a snap uses: the composite width and
        height choose the copy branch, the properties give the row stride
        and planeSize the plane's size. */
    function CurrentPlane(): Plane
      reads this`width, this`height, this`propWidth, this`propBytes, this`planeSize
    {
      Plane(width, height, Stride(propWidth, propBytes), planeSize)
    }

    /** A destination row is Width * Bytes bytes. While planeSize is the
        one CreateBuffers computed from the current properties, Height rows
        fill the plane exactly, so a frame copied row by row fits its plane
        whenever it has no more rows than the Height property. */
    lemma CurrentPlaneRows()
      requires planeSize == propWidth * propHeight * propBytes
      ensures CurrentPlane().rowBytes == propWidth * propBytes
      ensures Stride(propHeight, CurrentPlane().rowBytes) == planeSize
      ensures forall f: Frame | f.Wellformed() && f.width != width && f.height <= propHeight :: Fits(Some(f), CurrentPlane())
    {
      var rowBytes := CurrentPlane().rowBytes;
      StrideIsProduct(propWidth, propBytes);
      StrideIsProduct(propHeight, rowBytes);
      MulRotate(propWidth, propHeight, propBytes);
      forall f: Frame | f.Wellformed() && f.width != width && f.height <= propHeight
        ensures Fits(Some(f), CurrentPlane())
      {
        StrideMonotone(f.height, propHeight, rowBytes);
      }
    }

    /** The frame each channel copies from, given what every camera holds
        after its snap; None for a channel bound to the sentinel. */
    function Sources(frameOf: DeviceId -> Frame): seq<Option<Frame>>
      requires ValidSelection(cameraDevices, selectedCamera)
      reads this`cameraDevices, this`selectedCamera
    {
      var sel, devices := selectedCamera, cameraDevices;
      seq(|sel|, i requires 0 <= i < |sel| =>
        match devices[sel[i]] case None => None case Some(d) => Some(frameOf(d)))
    }

    /** Each channel copies from the frame of a camera the snap triggered,
        and from nothing exactly when it is bound to the sentinel. */
    lemma SourcesTriggered(frameOf: DeviceId -> Frame)
      requires Valid() && Initialized()
      ensures |Sources(frameOf)| == channelCount
      ensures forall c :: 0 <= c < channelCount ==> (Sources(frameOf)[c].None? <==> selectedCamera[c] == |cameraDevices| - 1)
      ensures forall c :: 0 <= c < channelCount && Sources(frameOf)[c].Some? ==>
        exists d :: d in TriggerPass(cameraDevices, selectedCamera, |selectedCamera|).triggered && Sources(frameOf)[c] == Some(frameOf(d))
    {
      var srcs := Sources(frameOf);
      TriggeredSelected(cameraDevices, selectedCamera);
      forall c | 0 <= c < channelCount && srcs[c].Some?
        ensures exists d :: d in TriggerPass(cameraDevices, selectedCamera, |selectedCamera|).triggered && srcs[c] == Some(frameOf(d))
      {
        var d := cameraDevices[selectedCamera[c]].value;
        assert cameraDevices[selectedCamera[c]] == Some(d);
      }
    }

    /** GetImageBuffer(c): the offset of channel c's plane in the buffer. */
    function ImageBufferOffset(c: nat): (off: nat)
      reads this`planeSize
      ensures off == Stride(c, planeSize)
    {
      StrideIsProduct(c, planeSize);
      planeSize * c
    }

    /** The planeSize bytes GetImageBuffer(c) points at. */
    function ChannelImage(c: nat): (img: seq<byte>)
      requires Valid() && buffer != null && c < channelCount
      reads this, buffer
      ensures |img| == planeSize
    {
      StrideIsProduct(channelCount, planeSize);
      StrideMonotone(c + 1, channelCount, planeSize);
      buffer[ImageBufferOffset(c) .. ImageBufferOffset(c) + planeSize]
    }

    /** GetImageBufferSize: one plane; the buffer holds one per channel. */
    function ImageBufferSize(): (n: nat)
      requires Valid()
      reads this
      ensures buffer != null ==> n * channelCount == buffer.Length
    {
      planeSize
    }

    /** GetBitDepth: eight bits per byte of the Bytes property. */
    function BitDepth(): nat
      reads this`propBytes
    {
      8 * propBytes
    }

    /** The first part of SnapImage: clears every mark, then triggers each
        selected camera that is not null and not already marked. */
    method TriggerCameras() returns (triggered: seq<DeviceId>)
      requires Valid() && Initialized()
      modifies this`cameraSnapstate
      ensures SnapSession(cameraSnapstate, triggered) == TriggerPass(cameraDevices, selectedCamera, |selectedCamera|)
      ensures Valid()
    {
      var j := 0;
      while j < |cameraSnapstate|
        invariant j <= |cameraSnapstate| == |cameraDevices|
        invariant forall k :: 0 <= k < j ==> !cameraSnapstate[k]
      {
        cameraSnapstate := cameraSnapstate[j := false];
        j := j + 1;
      }
      assert cameraSnapstate == TriggerPass(cameraDevices, selectedCamera, 0).snapState;

      triggered := [];
      var i := 0;
      while i < |selectedCamera|
        invariant i <= |selectedCamera|
        invariant SnapSession(cameraSnapstate, triggered) == TriggerPass(cameraDevices, selectedCamera, i)
      {
        var s := selectedCamera[i];
        if !cameraSnapstate[s] && cameraDevices[s].Some? {
          triggered := triggered + [cameraDevices[s].value];
          cameraSnapstate := cameraSnapstate[s := true];
        }
        i := i + 1;
      }
    }

    /** SnapImage: triggers every selected camera once, then lays the frame
        of each channel's camera into that channel's plane. frameOf gives
        what each camera holds once its snap has finished. With no buffer
        allocated yet the copy is skipped, as Empty does (see Findings). */
    method SnapImage(frameOf: DeviceId -> Frame) returns (status: Status, triggered: seq<DeviceId>)
      requires Valid() && Initialized()
      requires buffer != null ==> AllFit(Sources(frameOf), CurrentPlane())
      modifies this`cameraSnapstate, buffer
      ensures status == Ok
      ensures SnapSession(cameraSnapstate, triggered) == TriggerPass(cameraDevices, selectedCamera, |selectedCamera|)
      ensures buffer != null ==> buffer[..] == CompositeImage(Sources(frameOf), CurrentPlane())
      ensures buffer != null ==> forall c :: 0 <= c < channelCount ==> ChannelImage(c) == ChannelPlane(Sources(frameOf), CurrentPlane(), c)
      ensures Valid()
    {
      hide CompositeImage, PlaneImage, TriggerPass;
      triggered := TriggerCameras();
      if buffer != null {
        StrideIsProduct(channelCount, planeSize);
        CopyComposite(buffer, Sources(frameOf), CurrentPlane());
        forall c | 0 <= c < channelCount
          ensures ChannelImage(c) == ChannelPlane(Sources(frameOf), CurrentPlane(), c)
        {
          CompositePlane(Sources(frameOf), CurrentPlane(), c);
        }
      }
      status := Ok;
    }
  }

  /** The null write is latent. Once Initialize sizes the selection (the
      corrected Initialize of the selection finding), a device constructed
      and initialized with no ChannelCount or Camera N write in between has
      one selected channel and no buffer, so SnapImage as written, whose
      plane loop runs over the selection, writes channel 0 through the null
      pointer. With Initialize as written the selection stays empty, that
      loop runs zero times, and nothing is written. */
  method SnapAfterCorrectedInitialize(self: DeviceId, deviceLabel: string, loaded: seq<LoadedCamera>) returns (cam: PyCHCamera)
    requires DistinctLoaded(loaded)
    ensures cam.Initialized() && cam.channelCount == 1 && |cam.selectedCamera| == 1
    ensures SnapTargetAsWritten(cam.buffer != null, cam.planeSize, 0) == None
  {
    cam := new PyCHCamera(self, deviceLabel);
    var _ := cam.Initialize(loaded);
  }
}
