/**
 * The bookkeeping of the multi-camera compositor, as values: the table of
 * known cameras built at initialization, the channel-to-camera selection and
 * its resize, the composite geometry, the tag calls made on a camera that
 * loses a channel, and the trigger pass that snaps every selected camera once.
 */
module ChannelMap {
  import opened Options
  import opened Decimal

  /** A camera device as the host hands it out: an opaque handle. */
  type DeviceId = nat

  /** The name of the sentinel entry whose device is null. */
  const EmptyChannel: string := "Empty Channel"

  /** One loaded camera: the label GetLoadedDeviceOfType enumerated and what
      GetDevice returned for it (None for a null pointer). */
  datatype LoadedCamera = LoadedCamera(name: string, device: Option<DeviceId>)

  /** Initialize keeps a loaded camera unless it is null or the compositor itself. */
  predicate Usable(l: LoadedCamera, self: DeviceId) {
    l.device.Some? && l.device != Some(self)
  }

  /** The cameras Initialize puts in the table, in enumeration order. */
  function KnownCameras(loaded: seq<LoadedCamera>, self: DeviceId): (k: seq<LoadedCamera>)
    ensures |k| <= |loaded|
    ensures forall i :: 0 <= i < |k| ==> Usable(k[i], self)
    decreases |loaded|
  {
    if loaded == [] then []
    else
      var front := KnownCameras(loaded[..|loaded| - 1], self);
      if Usable(loaded[|loaded| - 1], self) then front + [loaded[|loaded| - 1]] else front
  }

  /** The table holds exactly the usable loaded cameras. */
  lemma {:induction false} KnownCamerasMembers(loaded: seq<LoadedCamera>, self: DeviceId)
    ensures forall l :: l in KnownCameras(loaded, self) <==> l in loaded && Usable(l, self)
    decreases |loaded|
  {
    if loaded != [] {
      var front := loaded[..|loaded| - 1];
      KnownCamerasMembers(front, self);
      assert loaded == front + [loaded[|loaded| - 1]];
    }
  }

  /** No two entries of a device list share a device (so at most one is null). */
  predicate DistinctDevices(devices: seq<Option<DeviceId>>) {
    forall i, j :: 0 <= i < j < |devices| ==> devices[i] != devices[j]
  }

  /** The host hands out a distinct device for every label. */
  predicate DistinctLoaded(loaded: seq<LoadedCamera>) {
    forall i, j :: 0 <= i < j < |loaded| && loaded[i].device.Some? ==> loaded[i].device != loaded[j].device
  }

  function Names(k: seq<LoadedCamera>): (r: seq<string>)
    ensures |r| == |k| && forall i :: 0 <= i < |k| ==> r[i] == k[i].name
  {
    seq(|k|, i requires 0 <= i < |k| => k[i].name)
  }

  function Devices(k: seq<LoadedCamera>): (r: seq<Option<DeviceId>>)
    ensures |r| == |k| && forall i :: 0 <= i < |k| ==> r[i] == k[i].device
  {
    seq(|k|, i requires 0 <= i < |k| => k[i].device)
  }

  /** Distinct loaded devices stay distinct in the table, and the null
      sentinel appended behind them is distinct from all of them. */
  lemma {:induction false} KnownCamerasDistinct(loaded: seq<LoadedCamera>, self: DeviceId)
    requires DistinctLoaded(loaded)
    ensures DistinctDevices(Devices(KnownCameras(loaded, self)) + [None])
    decreases |loaded|
  {
    var k := KnownCameras(loaded, self);
    var ds := Devices(k) + [None];
    if loaded != [] {
      var front := loaded[..|loaded| - 1];
      var last := loaded[|loaded| - 1];
      assert DistinctLoaded(front);
      KnownCamerasDistinct(front, self);
      KnownCamerasMembers(front, self);
      var kf := KnownCameras(front, self);
      if Usable(last, self) {
        assert k == kf + [last];
        forall i, j | 0 <= i < j < |ds|
          ensures ds[i] != ds[j]
        {
          if j < |kf| {
            assert ds[i] == (Devices(kf) + [None])[i] && ds[j] == (Devices(kf) + [None])[j];
          } else if j == |kf| {
            assert kf[i] in front;
            var m :| 0 <= m < |front| && front[m] == kf[i];
            assert loaded[m] == kf[i];
          }
        }
      } else {
        assert k == kf;
      }
    }
  }

  /** std::vector::resize on the selection: the first min(|s|, n) entries
      are kept and new entries are value-initialized to 0. */
  function Resized(s: seq<nat>, n: nat): (r: seq<nat>)
    ensures |r| == n
    ensures forall i :: 0 <= i < n && i < |s| ==> r[i] == s[i]
    ensures forall i :: |s| <= i < n ==> r[i] == 0
  {
    if n <= |s| then s[..n] else s + seq(n - |s|, _ => 0)
  }

  /** The position std::find reports for a name that is in the table. */
  function FirstIndex(names: seq<string>, name: string): (i: nat)
    requires name in names
    ensures i < |names| && names[i] == name
    ensures forall j :: 0 <= j < i ==> names[j] != name
    decreases |names|
  {
    if names[0] == name then 0 else 1 + FirstIndex(names[1..], name)
  }

  /** Width, height and bytes per pixel. */
  datatype Geometry = Geometry(width: nat, height: nat, bytes: nat)

  function Max(a: nat, b: nat): nat {
    if a < b then b else a
  }

  /** The composite geometry OnChannel computes: start from the Width, Height
      and Bytes properties and take the maximum with every selected camera
      that is not null. */
  function CompositeGeometry(base: Geometry, selected: seq<Option<DeviceId>>, geometry: DeviceId -> Geometry): (g: Geometry)
    decreases |selected|
  {
    if selected == [] then base
    else
      var g := CompositeGeometry(base, selected[..|selected| - 1], geometry);
      match selected[|selected| - 1]
      case None => g
      case Some(d) =>
        Geometry(Max(g.width, geometry(d).width), Max(g.height, geometry(d).height), Max(g.bytes, geometry(d).bytes))
  }

  /** The composite geometry covers the properties and every selected camera. */
  lemma {:induction false} CompositeGeometryBounds(base: Geometry, selected: seq<Option<DeviceId>>, geometry: DeviceId -> Geometry)
    ensures var g := CompositeGeometry(base, selected, geometry);
      && g.width >= base.width && g.height >= base.height && g.bytes >= base.bytes
      && forall i :: 0 <= i < |selected| && selected[i].Some? ==>
           && g.width >= geometry(selected[i].value).width
           && g.height >= geometry(selected[i].value).height
           && g.bytes >= geometry(selected[i].value).bytes
    decreases |selected|
  {
    if selected != [] {
      CompositeGeometryBounds(base, selected[..|selected| - 1], geometry);
    }
  }

  /** Each component of the composite geometry is the property's value or
      that of one of the selected cameras: it is the least upper bound. */
  lemma {:induction false} CompositeGeometryAttained(base: Geometry, selected: seq<Option<DeviceId>>, geometry: DeviceId -> Geometry)
    ensures var g := CompositeGeometry(base, selected, geometry);
      && (g.width == base.width || exists i :: 0 <= i < |selected| && selected[i].Some? && g.width == geometry(selected[i].value).width)
      && (g.height == base.height || exists i :: 0 <= i < |selected| && selected[i].Some? && g.height == geometry(selected[i].value).height)
      && (g.bytes == base.bytes || exists i :: 0 <= i < |selected| && selected[i].Some? && g.bytes == geometry(selected[i].value).bytes)
    decreases |selected|
  {
    if selected != [] {
      var front := selected[..|selected| - 1];
      CompositeGeometryAttained(base, front, geometry);
      assert forall i :: 0 <= i < |front| ==> front[i] == selected[i];
    }
  }

  /** The image-annotation tags a camera carries for the channel it serves. */
  datatype TagKey = CameraChannelName | CameraChannelIndex

  /** A call on a backing camera's tag table. */
  datatype TagCall =
    | RemoveTag(camera: DeviceId, key: TagKey)
    | AddTag(camera: DeviceId, key: TagKey, owner: string, value: string)

  /** The calls OnChannel makes on the camera that was bound to the channel. */
  function ChannelTags(camera: DeviceId, owner: string, name: string, channel: nat): (calls: seq<TagCall>)
    ensures forall t :: t in calls ==> t.camera == camera
    ensures |calls| == 4 && calls[..2] == [RemoveTag(camera, CameraChannelName), RemoveTag(camera, CameraChannelIndex)]
  {
    [RemoveTag(camera, CameraChannelName),
     RemoveTag(camera, CameraChannelIndex),
     AddTag(camera, CameraChannelName, owner, name),
     AddTag(camera, CameraChannelIndex, owner, DecimalString(channel))]
  }

  /** The tags it adds name the channel's camera and record the channel
      index as decimal text that reads back as the index. */
  lemma ChannelTagsValues(camera: DeviceId, owner: string, name: string, channel: nat)
    ensures var calls := ChannelTags(camera, owner, name, channel);
      && calls[2] == AddTag(camera, CameraChannelName, owner, name)
      && calls[3].AddTag? && calls[3].key == CameraChannelIndex && calls[3].owner == owner
      && (forall k :: 0 <= k < |calls[3].value| ==> IsDigit(calls[3].value[k]))
      && ParseDecimal(calls[3].value) == channel
  {
    DecimalRoundTrip(channel);
  }

  /** Every channel selects an entry of the table. */
  predicate ValidSelection(devices: seq<Option<DeviceId>>, sel: seq<nat>) {
    forall i :: 0 <= i < |sel| ==> sel[i] < |devices|
  }

  /** What a snap's trigger pass leaves: cameraSnapstate_, and the cameras
      whose SnapImage was started, in order. */
  datatype SnapSession = SnapSession(snapState: seq<bool>, triggered: seq<DeviceId>)

  /** The trigger pass after the first k channels: snapstate starts all
      false; a channel whose entry is already marked, or whose device is
      null, is skipped; otherwise its camera is triggered and its entry marked. */
  function TriggerPass(devices: seq<Option<DeviceId>>, sel: seq<nat>, k: nat): (s: SnapSession)
    requires ValidSelection(devices, sel) && k <= |sel|
    ensures |s.snapState| == |devices|
    decreases k
  {
    if k == 0 then SnapSession(seq(|devices|, _ => false), [])
    else
      var prev := TriggerPass(devices, sel, k - 1);
      var j := sel[k - 1];
      if prev.snapState[j] || devices[j].None? then prev
      else SnapSession(prev.snapState[j := true], prev.triggered + [devices[j].value])
  }

  /** Entry j is marked exactly when its device is not null and some channel
      among the first k selects it. */
  lemma {:induction false} TriggerSnapState(devices: seq<Option<DeviceId>>, sel: seq<nat>, k: nat)
    requires ValidSelection(devices, sel) && k <= |sel|
    ensures forall j :: 0 <= j < |devices| ==>
      (TriggerPass(devices, sel, k).snapState[j] <==> devices[j].Some? && exists i :: 0 <= i < k && sel[i] == j)
    decreases k
  {
    if k > 0 {
      TriggerSnapState(devices, sel, k - 1);
    }
  }

  /** The cameras triggered are exactly the devices of the marked entries. */
  lemma {:induction false} TriggeredMarked(devices: seq<Option<DeviceId>>, sel: seq<nat>, k: nat)
    requires ValidSelection(devices, sel) && k <= |sel|
    ensures var s := TriggerPass(devices, sel, k);
      forall d :: d in s.triggered <==> exists j :: 0 <= j < |devices| && s.snapState[j] && devices[j] == Some(d)
    decreases k
  {
    if k > 0 {
      TriggeredMarked(devices, sel, k - 1);
    }
  }

  /** A camera is triggered exactly when some channel selects it; the null
      sentinel never is, since a trigger names a device. */
  lemma TriggeredSelected(devices: seq<Option<DeviceId>>, sel: seq<nat>)
    requires ValidSelection(devices, sel)
    ensures forall d :: d in TriggerPass(devices, sel, |sel|).triggered <==>
      exists i :: 0 <= i < |sel| && devices[sel[i]] == Some(d)
  {
    var s := TriggerPass(devices, sel, |sel|);
    TriggerSnapState(devices, sel, |sel|);
    TriggeredMarked(devices, sel, |sel|);
    forall d
      ensures d in s.triggered <==> exists i :: 0 <= i < |sel| && devices[sel[i]] == Some(d)
    {
      if d in s.triggered {
        var j :| 0 <= j < |devices| && s.snapState[j] && devices[j] == Some(d);
        var i :| 0 <= i < |sel| && sel[i] == j;
        assert devices[sel[i]] == Some(d);
      }
      if i :| 0 <= i < |sel| && devices[sel[i]] == Some(d) {
        assert s.snapState[sel[i]];
      }
    }
  }

  predicate NoRepeats<T(==)>(t: seq<T>) {
    forall a, b :: 0 <= a < b < |t| ==> t[a] != t[b]
  }

  /** No entry's device is triggered twice when the table's devices are distinct. */
  lemma {:induction false} TriggeredDistinct(devices: seq<Option<DeviceId>>, sel: seq<nat>, k: nat)
    requires ValidSelection(devices, sel) && k <= |sel| && DistinctDevices(devices)
    ensures NoRepeats(TriggerPass(devices, sel, k).triggered)
    decreases k
  {
    if k > 0 {
      TriggeredDistinct(devices, sel, k - 1);
      TriggeredMarked(devices, sel, k - 1);
      var prev := TriggerPass(devices, sel, k - 1);
      var j := sel[k - 1];
      if !(prev.snapState[j] || devices[j].None?) {
        var d := devices[j].value;
        // Entry j is the only one holding d, and it is not yet marked.
        assert forall j' :: 0 <= j' < |devices| && prev.snapState[j'] ==> devices[j'] != Some(d);
        assert d !in prev.triggered;
      }
    }
  }

  /** At most one camera per channel is triggered. */
  lemma {:induction false} TriggeredCount(devices: seq<Option<DeviceId>>, sel: seq<nat>, k: nat)
    requires ValidSelection(devices, sel) && k <= |sel|
    ensures |TriggerPass(devices, sel, k).triggered| <= k
    decreases k
  {
    if k > 0 {
      TriggeredCount(devices, sel, k - 1);
    }
  }

  /** Every selected camera is triggered exactly once, however many channels
      alias it, and no other camera is triggered. */
  lemma TriggeredOnce(devices: seq<Option<DeviceId>>, sel: seq<nat>, d: DeviceId)
    requires ValidSelection(devices, sel) && DistinctDevices(devices)
    ensures multiset(TriggerPass(devices, sel, |sel|).triggered)[d]
         == if exists i :: 0 <= i < |sel| && devices[sel[i]] == Some(d) then 1 else 0
  {
    var t := TriggerPass(devices, sel, |sel|).triggered;
    TriggeredDistinct(devices, sel, |sel|);
    DistinctCount(t, d);
    TriggeredSelected(devices, sel);
    assert d in t <==> exists i :: 0 <= i < |sel| && devices[sel[i]] == Some(d);
  }

  /** In a sequence without repetitions an element occurs once or not at all. */
  lemma {:induction false} DistinctCount(t: seq<DeviceId>, d: DeviceId)
    requires NoRepeats(t)
    ensures multiset(t)[d] == if d in t then 1 else 0
    decreases |t|
  {
    if t != [] {
      var front := t[..|t| - 1];
      DistinctCount(front, d);
      assert t == front + [t[|t| - 1]];
      assert t[|t| - 1] !in front;
    }
  }
}
