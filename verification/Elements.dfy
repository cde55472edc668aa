/** DRIElements and val_video_impl: hotplug, mode changes, planes and sinks on top of one card. */
module VideoService {
  import opened Formats
  import opened Drm
  import opened CrtcChoice
  import opened DeviceModel
  import opened Scanout
  import opened ModeSetting
  import opened Sinks
  import opened SystemModel
  import opened ResolutionChanges
  import opened Resolutions
  import opened DriDevices

  /** The search from connector `i` on answers `goal`. */
  ghost predicate PathFrom(conns: seq<Connector>, hw: Hardware, path: nat, i: nat, goal: (seq<Connector>, nat)) {
    i <= |conns| && Known(conns, hw) && PathCrtc(conns, hw, path, i) == goal
  }

  lemma PathStep(conns: seq<Connector>, cs: seq<Connector>, hw: Hardware, path: nat, i: nat, dIdx: nat, plugged: bool, goal: (seq<Connector>, nat))
    requires i < |conns| && PathFrom(conns, hw, path, i, goal) && cs == Refresh(conns, hw, i)
    requires dIdx == i % 256 && plugged == Plugged(cs[i].info)
    ensures plugged && dIdx == path ==> goal == (cs, conns[i].crtcId)
    ensures !(plugged && dIdx == path) ==> PathFrom(cs, hw, path, i + 1, goal)
    ensures Known(cs, hw) && (dIdx + 1) % 256 == (i + 1) % 256
  {
  }

  /** `d` and `k` are what the mode sets of construction on the first `n` CRTCs leave. */
  ghost predicate ModesSet(d0: Device, k0: Resources, hw: Hardware, os: seq<Outcome>, n: nat, d: Device, k: Resources) {
    Answers(hw, d0) && n <= |d0.crtcs| == |os| && (d, k) == BootModes(d0, k0, hw, os, n)
  }

  lemma ModesSetStep(d0: Device, k0: Resources, hw: Hardware, os: seq<Outcome>, n: nat, d: Device, k: Resources)
    requires ModesSet(d0, k0, hw, os, n, d, k) && n < |d.crtcs|
    ensures n < |os| && Known(d.connectors, hw)
    ensures var r := SetMode(d, k, n, d.crtcs[n].max, hw, os[n]); ModesSet(d0, k0, hw, os, n + 1, r.device, r.kernel)
  {
    assert BootModes(d0, k0, hw, os, n + 1) == BootMode((d, k), hw, n, os[n]);
  }

  /** The first `n` connectors were fetched again, the others not. */
  ghost predicate PartRefreshed(before: seq<Connector>, now: seq<Connector>, hw: Hardware, n: nat) {
    && Known(before, hw) && |now| == |before|
    && forall k :: 0 <= k < |before| ==> now[k] == if k < n then before[k].(info := hw.connectors[before[k].id]) else before[k]
  }

  lemma RefreshStep(before: seq<Connector>, now: seq<Connector>, hw: Hardware, n: nat)
    requires n < |before| && PartRefreshed(before, now, hw, n)
    ensures Known(now, hw) && PartRefreshed(before, Refresh(now, hw, n), hw, n + 1)
    ensures now[n] == before[n]
    ensures n + 1 == |before| ==> Refresh(now, hw, n) == RefreshAll(before, hw)
  {
  }

  class DriElements {
    const device: DriDevice
    const initial: Size
    var configured: Size

    constructor (device: DriDevice, initial: Size)
      ensures this.device == device && this.initial == initial && configured == initial
    {
      this.device := device;
      this.initial := initial;
      configured := initial;
    }

    /** updateDevice without its callback; `known` says whether the device name is in the list. */
    method UpdateDevice(known: bool, hw: Hardware) returns (updated: bool)
      requires device.Valid() && Answers(hw, device.View())
      modifies device.connectorList, device.crtcList
      ensures updated == known
      ensures device.View() == if known then Pass(old(device.View()), hw, ConfMode(initial, configured)) else old(device.View())
    {
      if !known {
        return false;
      }
      var conf: Size;
      if configured.w != initial.w || configured.h != initial.h {
        conf := Size(initial.w, initial.h);
      } else {
        conf := Size(configured.w, configured.h);
      }
      device.SetupDevice(conf, hw);
      return true;
    }

    /** The first pass over the card and a mode set on every CRTC, each with its own limit. */
    method Open(hw: Hardware, os: seq<Outcome>)
      requires device.Valid() && Answers(hw, device.View()) && |os| == |device.crtcList|
      modifies device.connectorList, device.crtcList, device.card
      ensures var (d, k) := BootModes(Pass(old(device.View()), hw, ConfMode(initial, configured)), old(device.card.res), hw, os, |os|);
        device.View() == d && device.card.res == k
    {
      var _ := UpdateDevice(true, hw);
      ghost var d := device.View();
      assert Answers(hw, d) && |d.crtcs| == |os|;
      SetModes(hw, os);
    }

    /** A mode set on every CRTC, each with its own limit. */
    method SetModes(hw: Hardware, os: seq<Outcome>)
      requires device.Valid() && Answers(hw, device.View()) && |os| == |device.crtcList|
      modifies device.connectorList, device.crtcList, device.card
      ensures (device.View(), device.card.res) == BootModes(old(device.View()), old(device.card.res), hw, os, |os|)
    {
      ghost var d0, k0 := device.View(), device.card.res;
      for j := 0 to |device.crtcList|
        invariant ModesSet(d0, k0, hw, os, j, device.View(), device.card.res)
      {
        SetModeOf(j, hw, os, d0, k0);
      }
    }

    /** The mode set of construction on CRTC `j`. */
    method SetModeOf(j: nat, hw: Hardware, os: seq<Outcome>, ghost d0: Device, ghost k0: Resources)
      requires device.Valid() && j < |device.crtcList| && ModesSet(d0, k0, hw, os, j, device.View(), device.card.res)
      modifies device.connectorList, device.crtcList, device.card
      ensures ModesSet(d0, k0, hw, os, j + 1, device.View(), device.card.res)
    {
      ghost var d, k := device.View(), device.card.res;
      ModesSetStep(d0, k0, hw, os, j, d, k);
      assert d.crtcs[j] == device.crtcList[j].Value();
      var _ := device.SetActiveMode(j, device.crtcList[j].max, hw, os[j]);
    }

    /** isPlugged of connector `i`, and the CRTC it is bound to. */
    method LookAt(i: nat, hw: Hardware, ghost now: seq<Connector>) returns (plugged: bool, crtcId: nat)
      requires device.Valid() && device.Connectors() == now && Known(now, hw) && i < |device.connectorList|
      modifies device.connectorList
      ensures device.Connectors() == Refresh(now, hw, i) && device.Crtcs() == old(device.Crtcs())
      ensures plugged == Plugged(Refresh(now, hw, i)[i].info) && crtcId == now[i].crtcId
    {
      plugged := device.Replug(i, hw);
      assert device.Connectors()[i] == device.connectorList[i].Value();
      crtcId := device.connectorList[i].crtcId;
    }

    /** The loop that looks for the connector of a display path. */
    method FindPath(path: nat, hw: Hardware) returns (found: nat)
      requires device.Valid() && Known(device.Connectors(), hw)
      modifies device.connectorList
      ensures (device.Connectors(), found) == PathCrtc(old(device.Connectors()), hw, path, 0)
      ensures device.Crtcs() == old(device.Crtcs())
    {
      ghost var now, crtcs := device.Connectors(), device.Crtcs();
      ghost var goal := PathCrtc(now, hw, path, 0);
      var dIdx := 0;
      for i := 0 to |device.connectorList|
        invariant dIdx == i % 256 && |now| == |device.connectorList|
        invariant device.Connectors() == now && device.Crtcs() == crtcs && Known(now, hw)
        invariant PathFrom(now, hw, path, i, goal)
      {
        ghost var cs := Refresh(now, hw, i);
        var plugged, crtcId := LookAt(i, hw, now);
        PathStep(now, cs, hw, path, i, dIdx, plugged, goal);
        now := cs;
        if plugged && dIdx == path {
          return crtcId;
        }
        dIdx := (dIdx + 1) % 256;
      }
      return 0;
    }

    /** changeMode */
    method ChangeModeOf(size: Size, path: nat, hw: Hardware, o: Outcome) returns (done: bool)
      requires device.Valid() && Known(device.Connectors(), hw)
      modifies this`configured, device.connectorList, device.crtcList, device.card
      ensures var c := ChangeMode(old(device.View()), old(device.card.res), old(configured), size, path, hw, o);
        device.View() == c.device && device.card.res == c.kernel && configured == c.configured && done == c.done
    {
      var crtcId := FindPath(path, hw);
      var j := device.FindCrtcById(crtcId);
      if j == |device.crtcList| {
        return false;
      }
      done := ApplyMode(j, size, hw, o);
    }

    /** The mode change on CRTC `j`. */
    method ApplyMode(j: nat, size: Size, hw: Hardware, o: Outcome) returns (done: bool)
      requires device.Valid() && Known(device.Connectors(), hw) && j < |device.crtcList|
      modifies this`configured, device.connectorList, device.crtcList, device.card
      ensures var r := SetMode(old(device.View()), old(device.card.res), j, size, hw, o);
        && done == r.ok && device.card.res == r.kernel
        && device.View() == (if r.ok then r.device.(crtcs := r.device.crtcs[j := r.device.crtcs[j].(max := size)]) else r.device)
        && configured == if r.ok then size else old(configured)
    {
      var failed := device.SetActiveMode(j, size, hw, o);
      if failed {
        return false;
      }
      device.LimitCrtc(j, size);
      configured := size;
      return true;
    }

    /** getModeRange of a CRTC: its limits, when it exists. */
    method GetModeRange(crtcId: nat) returns (range: Option<(Size, Size)>)
      ensures var k := CrtcIndex(device.Crtcs(), crtcId, 0);
        range == if k < |device.crtcList| then Some((device.Crtcs()[k].min, device.Crtcs()[k].max)) else None
    {
      var k := device.FindCrtcById(crtcId);
      if k < |device.crtcList| {
        assert device.Crtcs()[k] == device.crtcList[k].Value();
        return Some((device.crtcList[k].min, device.crtcList[k].max));
      }
      return None;
    }

    /** getPlanes */
    method GetPlanes() returns (planes: seq<nat>)
      requires Indexed(device.View())
      ensures planes == PlanesList(device.View(), |device.crtcList|)
    {
      ghost var d := device.View();
      planes := [];
      for j := 0 to |device.crtcList|
        invariant planes == PlanesList(d, j)
      {
        assert d.crtcs[j] == device.crtcList[j].Value();
        if |device.crtcList[j].connectors| != 0 {
          planes := AppendPlanes(planes, device.crtcList[j].index);
        }
      }
    }

    /** The inner loop of getPlanes. */
    method AppendPlanes(before: seq<nat>, index: nat) returns (planes: seq<nat>)
      requires index < 32
      ensures planes == before + PlanesFor(device.planeList, index, |device.planeList|)
    {
      planes := before;
      for i := 0 to |device.planeList|
        invariant planes == before + PlanesFor(device.planeList, index, i)
      {
        if HasBit(device.planeList[i].possibleCrtcs, index) {
          planes := planes + [device.planeList[i].id];
        }
      }
    }

    /** getSupportedNumConnector */
    method GetSupportedNumConnector(hw: Hardware) returns (n: nat)
      requires device.Valid() && Known(device.Connectors(), hw)
      modifies device.connectorList
      ensures device.Connectors() == RefreshAll(old(device.Connectors()), hw) && device.Crtcs() == old(device.Crtcs())
      ensures n == PluggedCount(old(device.Connectors()), hw, |device.connectorList|)
    {
      ghost var before, crtcs := device.Connectors(), device.Crtcs();
      ghost var now := before;
      n := 0;
      for i := 0 to |device.connectorList|
        invariant device.Connectors() == now && device.Crtcs() == crtcs
        invariant PartRefreshed(before, now, hw, i)
        invariant n == PluggedCount(before, hw, i)
      {
        RefreshStep(before, now, hw, i);
        var plugged := device.Replug(i, hw);
        now := Refresh(now, hw, i);
        if plugged {
          n := n + 1;
        }
      }
    }

    /** getSupportedModes: the kernel's list without adjacent repeats. */
    method GetSupportedModes(connIndex: nat) returns (sizes: seq<Size>)
      requires |device.connectorList| == 0 || connIndex < |device.connectorList|
      ensures |device.connectorList| == 0 ==> sizes == []
      ensures |device.connectorList| != 0 ==>
        exists all :: IsSizes(all, device.connectorList[connIndex].info.modes) && sizes == Unique(all)
    {
      if |device.connectorList| == 0 {
        return [];
      }
      var all := device.connectorList[connIndex].GetSupportedModes();
      assert IsSizes(all, device.connectorList[connIndex].info.modes);
      sizes := Unique(all);
    }
  }

  /** The sizes of the modes, one by one. */
  predicate IsSizes(sizes: seq<Size>, modes: seq<Mode>) {
    |sizes| == |modes| && forall i :: 0 <= i < |modes| ==> sizes[i] == Size(modes[i].hdisplay, modes[i].vdisplay)
  }

  /** Exactly the sinks of the first `n` logical planes. */
  ghost predicate SinksUpTo(sinks: map<nat, Sink>, d: Device, n: nat) {
    && Indexed(d)
    && (forall w: nat :: w in sinks <==> w < n)
    && forall w: nat :: w in sinks ==> sinks[w] == SinkFor(d, w)
  }

  lemma SinksStep(sinks: map<nat, Sink>, d: Device, n: nat)
    requires SinksUpTo(sinks, d, n)
    ensures SinksUpTo(sinks[n := SinkFor(d, n)], d, n + 1)
  {
  }

  lemma SinksAll(sinks: map<nat, Sink>, d: Device, n: nat)
    requires SinksUpTo(sinks, d, n)
    ensures sinks == map wid | 0 <= wid < n :: SinkFor(d, wid)
  {
  }

  /** `d` and `k` are what the construction of DRIElements leaves. */
  ghost predicate Opened(d0: Device, k0: Resources, caps: Caps, hw: Hardware, os: seq<Outcome>, d: Device, k: Resources) {
    Answers(hw, d0) && |os| == |d0.crtcs| && (d, k) == BootModes(Pass(d0, hw, ConfMode(caps.max, caps.max)), k0, hw, os, |os|)
  }

  lemma BootIndexed(d0: Device, k0: Resources, caps: Caps, hw: Hardware, os: seq<Outcome>)
    requires Answers(hw, d0) && Indexed(d0) && |os| == |d0.crtcs|
    ensures Indexed(BootModes(Pass(d0, hw, ConfMode(caps.max, caps.max)), k0, hw, os, |os|).0)
  {
    BootShape(Pass(d0, hw, caps.max), k0, hw, os, |os|);
  }

  lemma BootParts(d0: Device, k0: Resources, caps: Caps, hw: Hardware, os: seq<Outcome>, count: nat,
                  d: Device, k: Resources, sinks: map<nat, Sink>)
    requires Answers(hw, d0) && Indexed(d0) && |os| == |d0.crtcs|
    requires Opened(d0, k0, caps, hw, os, d, k) && SinksUpTo(sinks, d, count)
    ensures System(d, k, caps.max, UpdatePlanes(FreshPlanes(caps, count), d, sinks, caps), sinks) == Boot(d0, k0, caps, hw, os, count)
  {
    SinksAll(sinks, d, count);
  }

  /** A resolution event that gets as far as changeMode. */
  lemma ChangeStep(s: System, caps: Caps, win: Size, path: nat, hw: Hardware, o: Outcome, c: Change)
    requires Answers(hw, s.device) && ValidMode(caps, win)
    requires PluggedCount(s.device.connectors, hw, |s.device.connectors|) > path
    requires c == ChangeMode(s.device.(connectors := RefreshAll(s.device.connectors, hw)), s.kernel, s.configured, win, path, hw, o)
    ensures Step(s, caps, Resolution(win, path, hw, o)) == s.(device := c.device, kernel := c.kernel, configured := c.configured)
    ensures Reported(s, caps, win, path, hw, o) == !c.done
  {
  }

  class ValVideo {
    const caps: Caps
    const elements: DriElements
    var logicalPlanes: seq<LogicalPlane>
    var videoSinks: map<nat, Sink>

    ghost predicate Valid() {
      elements.device.Valid() && elements.initial == caps.max
    }

    /** The service as a state of the model. */
    ghost function State(): System
      reads this, elements, elements.device.connectorList, elements.device.crtcList, elements.device.card
    {
      System(elements.device.View(), elements.device.card.res, elements.configured, logicalPlanes, videoSinks)
    }

    /** Construction with `count` logical planes. */
    constructor (caps: Caps, elements: DriElements, count: nat, hw: Hardware, os: seq<Outcome>)
      requires elements.device.Valid() && elements.initial == caps.max == elements.configured
      requires Answers(hw, elements.device.View()) && Indexed(elements.device.View()) && |os| == |elements.device.crtcList|
      modifies elements.device.connectorList, elements.device.crtcList, elements.device.card
      ensures Valid() && this.caps == caps && this.elements == elements
      ensures State() == Boot(old(elements.device.View()), old(elements.device.card.res), caps, hw, os, count)
    {
      this.caps := caps;
      this.elements := elements;
      logicalPlanes := FreshPlanes(caps, count);
      videoSinks := map[];
      new;
      Start(count, hw, os);
    }

    /** What construction does after the logical planes are listed. */
    method Start(count: nat, hw: Hardware, os: seq<Outcome>)
      requires Valid() && Answers(hw, elements.device.View()) && |os| == |elements.device.crtcList|
      requires elements.configured == caps.max && Indexed(elements.device.View()) && videoSinks == map[]
      requires logicalPlanes == FreshPlanes(caps, count)
      modifies this, elements.device.connectorList, elements.device.crtcList, elements.device.card
      ensures State() == Boot(old(elements.device.View()), old(elements.device.card.res), caps, hw, os, count)
    {
      ghost var d0, k0 := elements.device.View(), elements.device.card.res;
      OpenElements(hw, os);
      ghost var d, k := elements.device.View(), elements.device.card.res;
      MakePlanes(count);
      assert State() == System(d, k, caps.max, logicalPlanes, videoSinks);
      BootParts(d0, k0, caps, hw, os, count, d, k, videoSinks);
    }

    method OpenElements(hw: Hardware, os: seq<Outcome>)
      requires Valid() && Answers(hw, elements.device.View()) && |os| == |elements.device.crtcList|
      requires elements.configured == caps.max && Indexed(elements.device.View())
      modifies elements.device.connectorList, elements.device.crtcList, elements.device.card
      ensures Opened(old(elements.device.View()), old(elements.device.card.res), caps, hw, os, elements.device.View(), elements.device.card.res)
      ensures Indexed(elements.device.View())
    {
      ghost var d0, k0 := elements.device.View(), elements.device.card.res;
      elements.Open(hw, os);
      BootIndexed(d0, k0, caps, hw, os);
    }

    method MakePlanes(count: nat)
      requires Indexed(elements.device.View()) && videoSinks == map[] && logicalPlanes == FreshPlanes(caps, count)
      modifies this`videoSinks, this`logicalPlanes
      ensures SinksUpTo(videoSinks, elements.device.View(), count)
      ensures logicalPlanes == UpdatePlanes(FreshPlanes(caps, count), elements.device.View(), videoSinks, caps)
    {
      MakeSinks(count);
      UpdateLogicalPlanes();
    }

    /** The sink of logical plane `wid`. */
    method MakeSink(planes: seq<nat>, wid: nat) returns (s: Sink)
      requires Indexed(elements.device.View()) && planes == PlanesList(elements.device.View(), |elements.device.crtcList|)
      ensures s == SinkFor(elements.device.View(), wid)
    {
      if wid < |planes| {
        var crtcId := elements.device.FindCrtcOfPlane(planes[wid]);
        var connId := elements.device.FindConnector(planes[wid]);
        return Sink(planes[wid], crtcId, connId, false);
      }
      return Sink(0, 0, 0, false);
    }

    /** One sink for each logical plane, from the planes in the order of getPlanes. */
    method MakeSinks(count: nat)
      requires Indexed(elements.device.View()) && videoSinks == map[]
      modifies this`videoSinks
      ensures SinksUpTo(videoSinks, elements.device.View(), count)
    {
      var planes := elements.GetPlanes();
      ghost var d := elements.device.View();
      for wid := 0 to count
        invariant elements.device.View() == d
        invariant SinksUpTo(videoSinks, d, wid)
      {
        var s := MakeSink(planes, wid);
        SinksStep(videoSinks, d, wid);
        videoSinks := videoSinks[wid := s];
      }
    }

    /** The body of the loop of updatePlanes. */
    method UpdateLogicalPlane(p: LogicalPlane) returns (q: LogicalPlane)
      ensures q == UpdatedPlane(p, elements.device.View(), videoSinks, caps)
    {
      q := p;
      if p.wid in videoSinks {
        var range := elements.GetModeRange(videoSinks[p.wid].crtcId);
        if range.Some? {
          var max := range.value.1;
          if caps.max.h >= max.h || caps.max.w >= max.w {
            q := p.(max := max);
          }
        }
      }
    }

    /** updatePlanes */
    method UpdateLogicalPlanes()
      modifies this`logicalPlanes
      ensures logicalPlanes == UpdatePlanes(old(logicalPlanes), elements.device.View(), videoSinks, caps)
    {
      ghost var before, d := logicalPlanes, elements.device.View();
      for i := 0 to |logicalPlanes|
        invariant |logicalPlanes| == |before| && elements.device.View() == d
        invariant forall k :: 0 <= k < i ==> logicalPlanes[k] == UpdatedPlane(before[k], d, videoSinks, caps)
        invariant forall k :: i <= k < |before| ==> logicalPlanes[k] == before[k]
      {
        var q := UpdateLogicalPlane(logicalPlanes[i]);
        logicalPlanes := logicalPlanes[i := q];
      }
    }

    /** The hotplug callback chain: updateDevice, then updatePlanes. */
    method OnHotplug(known: bool, hw: Hardware)
      requires Valid() && Answers(hw, elements.device.View())
      modifies this`logicalPlanes, elements.device.connectorList, elements.device.crtcList
      ensures Valid() && State() == Step(old(State()), caps, Hotplug(known, hw))
    {
      var updated := elements.UpdateDevice(known, hw);
      if updated {
        UpdateLogicalPlanes();
      }
    }

    /** setDisplayResolution */
    method SetDisplayResolution(win: Size, path: nat, hw: Hardware, o: Outcome) returns (ok: bool)
      requires Valid() && Answers(hw, elements.device.View())
      modifies elements, elements.device.connectorList, elements.device.crtcList, elements.device.card
      ensures Valid() && State() == Step(old(State()), caps, Resolution(win, path, hw, o))
      ensures ok == Reported(old(State()), caps, win, path, hw, o)
    {
      ghost var before := State();
      if !ValidMode(caps, win) {
        return false;
      }
      var n := elements.GetSupportedNumConnector(hw);
      if n <= path {
        return false;
      }
      ghost var c := ChangeMode(elements.device.View(), elements.device.card.res, elements.configured, win, path, hw, o);
      var changed := elements.ChangeModeOf(win, path, hw, o);
      ChangeStep(before, caps, win, path, hw, o, c);
      return !changed;
    }

    /** connect: hands out the plane of a sink that was not connected. */
    method ConnectSink(wid: nat) returns (ok: bool, planeId: Option<nat>)
      modifies this`videoSinks
      ensures State() == Step(old(State()), caps, Connect(wid))
      ensures ok == (wid in videoSinks)
      ensures planeId == if wid in old(videoSinks) && !old(videoSinks)[wid].connected then Some(old(videoSinks)[wid].planeId) else None
    {
      planeId := None;
      if wid !in videoSinks {
        return false, None;
      }
      if videoSinks[wid].connected {
        assert videoSinks[wid := videoSinks[wid].(connected := true)] == videoSinks;
        return true, None;
      }
      planeId := Some(videoSinks[wid].planeId);
      videoSinks := videoSinks[wid := videoSinks[wid].(connected := true)];
      return true, planeId;
    }

    /** disconnect */
    method DisconnectSink(wid: nat) returns (ok: bool)
      modifies this`videoSinks
      ensures State() == Step(old(State()), caps, Disconnect(wid))
      ensures ok == (wid in old(videoSinks) && old(videoSinks)[wid].connected)
    {
      if wid !in videoSinks || !videoSinks[wid].connected {
        return false;
      }
      videoSinks := videoSinks[wid := videoSinks[wid].(connected := false)];
      return true;
    }

    /** getSupportedResolutions */
    method GetSupportedResolutions(connIndex: nat) returns (sizes: seq<Size>)
      requires |elements.device.connectorList| == 0 || connIndex < |elements.device.connectorList|
      ensures |elements.device.connectorList| == 0 ==> sizes == []
      ensures |elements.device.connectorList| != 0 ==>
        exists all :: IsSizes(all, elements.device.connectorList[connIndex].info.modes) && sizes == Supported(all, caps)
    {
      var modes := elements.GetSupportedModes(connIndex);
      sizes := Keep(modes, IsValid(caps));
    }
  }
}
