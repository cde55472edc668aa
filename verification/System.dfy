/** The whole service as a state machine: construction, hotplug, resolution changes and sink connections. */
module SystemModel {
  import opened Formats
  import opened Drm
  import opened CrtcChoice
  import opened DeviceModel
  import opened Scanout
  import opened ModeNames
  import opened ModeSetting
  import opened Searches
  import opened Sinks

  /** The configured limits of the device. */
  datatype Caps = Caps(min: Size, max: Size)

  /** A logical plane and the sizes it reports. */
  datatype LogicalPlane = LogicalPlane(wid: nat, min: Size, max: Size)

  datatype System = System(device: Device, kernel: Resources, configured: Size,
                           planes: seq<LogicalPlane>, sinks: map<nat, Sink>)

  datatype Event =
    | Hotplug(known: bool, hw: Hardware)
    | Resolution(win: Size, path: nat, hw: Hardware, outcome: Outcome)
    | Connect(wid: nat)
    | Disconnect(wid: nat)

  // ----- logical planes follow their CRTC -----

  /** The guard under which updatePlanes takes the limit of a CRTC. */
  predicate Guard(caps: Caps, max: Size) {
    caps.max.h >= max.h || caps.max.w >= max.w
  }

  function UpdatedPlane(p: LogicalPlane, d: Device, sinks: map<nat, Sink>, caps: Caps): LogicalPlane {
    if p.wid !in sinks then p
    else
      var k := CrtcIndex(d.crtcs, sinks[p.wid].crtcId, 0);
      if k < |d.crtcs| && Guard(caps, d.crtcs[k].max) then p.(max := d.crtcs[k].max) else p
  }

  function UpdatePlanes(planes: seq<LogicalPlane>, d: Device, sinks: map<nat, Sink>, caps: Caps): (r: seq<LogicalPlane>)
    ensures |r| == |planes| && forall i :: 0 <= i < |planes| ==> r[i] == UpdatedPlane(planes[i], d, sinks, caps)
  {
    seq(|planes|, i requires 0 <= i < |planes| => UpdatedPlane(planes[i], d, sinks, caps))
  }

  /** Logical plane `i`, when its sink has an existing CRTC, reports the limit of that CRTC. */
  predicate PlaneCurrent(s: System, i: nat)
    requires i < |s.planes|
  {
    s.planes[i].wid in s.sinks ==>
      var k := CrtcIndex(s.device.crtcs, s.sinks[s.planes[i].wid].crtcId, 0);
      k < |s.device.crtcs| ==> s.planes[i].max == s.device.crtcs[k].max
  }

  ghost predicate PlanesCurrent(s: System) {
    forall i :: 0 <= i < |s.planes| ==> PlaneCurrent(s, i)
  }

  // ----- steps -----

  /** The size that updateDevice configures. */
  function ConfMode(initial: Size, configured: Size): Size {
    if configured.w != initial.w || configured.h != initial.h then initial else configured
  }

  predicate ValidMode(caps: Caps, win: Size) {
    win.w <= caps.max.w && win.h <= caps.max.h && win.w >= caps.min.w && win.h >= caps.min.h
  }

  /** isPlugged on every connector. */
  function RefreshAll(conns: seq<Connector>, hw: Hardware): (r: seq<Connector>)
    requires Known(conns, hw)
    ensures |r| == |conns| && forall i :: 0 <= i < |conns| ==> r[i] == conns[i].(info := hw.connectors[conns[i].id])
  {
    seq(|conns|, i requires 0 <= i < |conns| => conns[i].(info := hw.connectors[conns[i].id]))
  }

  /** getSupportedNumConnector over the first `n` connectors. */
  function PluggedCount(conns: seq<Connector>, hw: Hardware, n: nat): nat
    requires n <= |conns| && Known(conns, hw)
  {
    if n == 0 then 0 else PluggedCount(conns, hw, n - 1) + if Plugged(hw.connectors[conns[n - 1].id]) then 1 else 0
  }

  /** The positions of the connectors that are connected and have modes. */
  function PluggedAt(conns: seq<Connector>, hw: Hardware, n: nat): set<nat>
    requires n <= |conns| && Known(conns, hw)
  {
    set i: nat | i < n && hw.connectors[conns[i].id].connected && |hw.connectors[conns[i].id].modes| > 0
  }

  lemma PluggedNext(conns: seq<Connector>, hw: Hardware, n: nat)
    requires 0 < n <= |conns| && Known(conns, hw)
    ensures var before := PluggedAt(conns, hw, n - 1);
      n - 1 !in before &&
      PluggedAt(conns, hw, n) == if Plugged(hw.connectors[conns[n - 1].id]) then before + {n - 1} else before
  {
  }

  /** The count is how many there are. */
  lemma {:induction false} PluggedCounts(conns: seq<Connector>, hw: Hardware, n: nat)
    requires n <= |conns| && Known(conns, hw)
    ensures PluggedCount(conns, hw, n) == |PluggedAt(conns, hw, n)|
  {
    if n > 0 {
      PluggedCounts(conns, hw, n - 1);
      PluggedNext(conns, hw, n);
    } else {
      assert PluggedAt(conns, hw, 0) == {};
    }
  }

  predicate ValidEvent(d: Device, e: Event) {
    match e
    case Hotplug(_, hw) => Answers(hw, d)
    case Resolution(_, _, hw, _) => Answers(hw, d)
    case _ => true
  }

  function Step(s: System, caps: Caps, e: Event): System
    requires ValidEvent(s.device, e)
  {
    match e
    case Hotplug(known, hw) =>
      if !known then s
      else
        var d := Pass(s.device, hw, ConfMode(caps.max, s.configured));
        s.(device := d, planes := UpdatePlanes(s.planes, d, s.sinks, caps))
    case Resolution(win, path, hw, o) =>
      if !ValidMode(caps, win) then s
      else
        var d := s.device.(connectors := RefreshAll(s.device.connectors, hw));
        if PluggedCount(s.device.connectors, hw, |s.device.connectors|) <= path then s.(device := d)
        else
          var c := ChangeMode(d, s.kernel, s.configured, win, path, hw, o);
          s.(device := c.device, kernel := c.kernel, configured := c.configured)
    case Connect(wid) =>
      if wid in s.sinks then s.(sinks := s.sinks[wid := s.sinks[wid].(connected := true)]) else s
    case Disconnect(wid) =>
      if wid in s.sinks && s.sinks[wid].connected then s.(sinks := s.sinks[wid := s.sinks[wid].(connected := false)]) else s
  }

  // ----- construction -----

  /** The mode set of construction on one CRTC, with its own limit. */
  function BootMode(s: (Device, Resources), hw: Hardware, j: nat, o: Outcome): (r: (Device, Resources))
    requires j < |s.0.crtcs| && Known(s.0.connectors, hw)
    ensures |r.0.crtcs| == |s.0.crtcs| && |r.0.connectors| == |s.0.connectors| && r.0.planes == s.0.planes
    ensures forall i :: 0 <= i < |s.0.connectors| ==> r.0.connectors[i].id == s.0.connectors[i].id
  {
    var r := SetMode(s.0, s.1, j, s.0.crtcs[j].max, hw, o);
    (r.device, r.kernel)
  }

  /** The mode sets of construction on the first `n` CRTCs, each with its own limit. */
  function BootModes(d: Device, k: Resources, hw: Hardware, os: seq<Outcome>, n: nat): (r: (Device, Resources))
    requires Answers(hw, d) && n <= |d.crtcs| && |os| == |d.crtcs|
    ensures |r.0.crtcs| == |d.crtcs| && |r.0.connectors| == |d.connectors| && r.0.planes == d.planes
    ensures forall i :: 0 <= i < |d.connectors| ==> r.0.connectors[i].id == d.connectors[i].id
  {
    if n == 0 then (d, k) else BootMode(BootModes(d, k, hw, os, n - 1), hw, n - 1, os[n - 1])
  }

  /** The logical planes as construction lists them. */
  function FreshPlanes(caps: Caps, count: nat): seq<LogicalPlane> {
    seq(count, i requires 0 <= i < count => LogicalPlane(i, caps.min, caps.max))
  }

  /** Construction with `count` logical planes on a card that was never used. */
  function Boot(d0: Device, k0: Resources, caps: Caps, hw: Hardware, os: seq<Outcome>, count: nat): System
    requires Answers(hw, d0) && Indexed(d0) && |os| == |d0.crtcs|
  {
    var (d, k) := BootModes(Pass(d0, hw, ConfMode(caps.max, caps.max)), k0, hw, os, |d0.crtcs|);
    BootShape(Pass(d0, hw, ConfMode(caps.max, caps.max)), k0, hw, os, |d0.crtcs|);
    var sinks := map wid | 0 <= wid < count :: SinkFor(d, wid);
    System(d, k, caps.max, UpdatePlanes(FreshPlanes(caps, count), d, sinks, caps), sinks)
  }

  /** Same ids, bindings and limits; handles and fetched connector data may differ. */
  ghost predicate SameBindings(d: Device, d': Device) {
    && SameShape(d, d')
    && (forall i :: 0 <= i < |d.crtcs| ==> SameLimits(d.crtcs[i], d'.crtcs[i]))
    && (forall i :: 0 <= i < |d.connectors| ==> d'.connectors[i].crtcId == d.connectors[i].crtcId)
  }

  predicate SameLimits(c: Crtc, c': Crtc) {
    c'.connectors == c.connectors && c'.max == c.max && c'.min == c.min
  }

  lemma SetModeShape(d: Device, k: Resources, j: nat, size: Size, hw: Hardware, o: Outcome)
    requires j < |d.crtcs| && Known(d.connectors, hw)
    ensures SameBindings(d, SetMode(d, k, j, size, hw, o).device)
  {
  }

  /** Construction's mode sets change neither bindings nor limits. */
  lemma {:induction false} BootShape(d: Device, k: Resources, hw: Hardware, os: seq<Outcome>, n: nat)
    requires Answers(hw, d) && n <= |d.crtcs| && |os| == |d.crtcs|
    ensures SameBindings(d, BootModes(d, k, hw, os, n).0)
  {
    if n > 0 {
      BootShape(d, k, hw, os, n - 1);
      var (d1, k1) := BootModes(d, k, hw, os, n - 1);
      SetModeShape(d1, k1, n - 1, d1.crtcs[n - 1].max, hw, os[n - 1]);
    }
  }

  // ----- the invariant -----

  /** A mode set used a framebuffer of the size its mode is named after, on at least one connector. */
  predicate SoundSet(m: ModeSet) {
    m.fbSize.Some? && m.connectors != [] && m.mode.name == ModeName(m.fbSize.value.w, m.fbSize.value.h)
  }

  ghost predicate SoundKernel(crtcs: seq<Crtc>, k: Resources) {
    Conserved(crtcs, k) && forall i :: 0 <= i < |k.sets| ==> SoundSet(k.sets[i])
  }

  /** Every limit is inside the guard of updatePlanes, and no CRTC drives two connectors. */
  predicate SoundCrtcs(d: Device, caps: Caps) {
    forall j :: 0 <= j < |d.crtcs| ==> Guard(caps, d.crtcs[j].max) && |d.crtcs[j].connectors| <= 1
  }

  /** What holds after construction and after every event. */
  ghost predicate Invariant(s: System, caps: Caps) {
    && SoundCrtcs(s.device, caps)
    && SoundKernel(s.device.crtcs, s.kernel)
    && (forall i :: 0 <= i < |s.planes| ==> s.planes[i].wid in s.sinks)
  }

  lemma SetModeSound(d: Device, k: Resources, j: nat, size: Size, hw: Hardware, o: Outcome)
    requires j < |d.crtcs| && Known(d.connectors, hw) && SoundKernel(d.crtcs, k)
    ensures var r := SetMode(d, k, j, size, hw, o); SoundKernel(r.device.crtcs, r.kernel)
  {
    SetModeCoherent(d, k, j, size, hw, o);
    ConservedStep(d.crtcs, k, j, size, o);
    var r := SetMode(d, k, j, size, hw, o);
    SetModeKernel(d, k, j, size, hw, o);
    if OneCall(d, k, j, size, o, r) {
      HandlesDecide(r.device.crtcs, KernelAfter(d.crtcs[j], k, size, o), r.device.crtcs, r.kernel);
    }
    if r.ok {
      SetsSound(k.sets, r.kernel.sets);
    }
  }

  /** The handles changed as by exactly one call of createScanoutFb on CRTC `j`. */
  predicate OneCall(d: Device, k: Resources, j: nat, size: Size, o: Outcome, r: Outcomes)
    requires j < |d.crtcs|
  {
    && r.device.crtcs == d.crtcs[j := CrtcWithScanout(d.crtcs[j], k, o)]
    && r.kernel == KernelAfter(d.crtcs[j], k, size, o).(sets := r.kernel.sets)
  }

  /** Either nothing happened to the handles, or exactly one call did. */
  lemma SetModeKernel(d: Device, k: Resources, j: nat, size: Size, hw: Hardware, o: Outcome)
    requires j < |d.crtcs| && Known(d.connectors, hw)
    ensures var r := SetMode(d, k, j, size, hw, o);
      && (r.ok ==> OneCall(d, k, j, size, o, r))
      && (!r.ok ==> (r.kernel == k && r.device.crtcs == d.crtcs) || OneCall(d, k, j, size, o, r))
  {
  }

  lemma SetsSound(before: seq<ModeSet>, after: seq<ModeSet>)
    requires |after| == |before| + 1 && after[..|before|] == before && SoundSet(after[|before|])
    requires forall i :: 0 <= i < |before| ==> SoundSet(before[i])
    ensures forall i :: 0 <= i < |after| ==> SoundSet(after[i])
  {
    assert forall i :: 0 <= i < |before| ==> after[i] == after[..|before|][i];
  }

  /** A hotplug pass keeps every limit inside the guard, and every handle. */
  lemma PassKeeps(d: Device, hw: Hardware, caps: Caps)
    requires Answers(hw, d) && SoundCrtcs(d, caps)
    ensures var d' := Pass(d, hw, caps.max);
      SoundCrtcs(d', caps) && forall j :: 0 <= j < |d.crtcs| ==> d'.crtcs[j].bo == d.crtcs[j].bo && d'.crtcs[j].fb == d.crtcs[j].fb
  {
    forall j | 0 <= j < |d.crtcs|
      ensures var c := Pass(d, hw, caps.max).crtcs[j];
        Guard(caps, c.max) && |c.connectors| <= 1 && c.bo == d.crtcs[j].bo && c.fb == d.crtcs[j].fb
    {
      LastWriterWins(d, hw, caps.max, |d.connectors|, j);
    }
  }

  lemma SoundSame(crtcs: seq<Crtc>, crtcs': seq<Crtc>, k: Resources)
    requires SoundKernel(crtcs, k) && |crtcs'| == |crtcs|
    requires forall j :: 0 <= j < |crtcs| ==> crtcs'[j].bo == crtcs[j].bo && crtcs'[j].fb == crtcs[j].fb
    ensures SoundKernel(crtcs', k)
  {
    HandlesDecide(crtcs, k, crtcs', k);
  }

  /** What changeMode does when it finds the CRTC of its path. */
  lemma ChangeSound(d: Device, k: Resources, configured: Size, j: nat, size: Size, hw: Hardware, o: Outcome, caps: Caps)
    requires j < |d.crtcs| && Known(d.connectors, hw) && SoundCrtcs(d, caps) && SoundKernel(d.crtcs, k) && ValidMode(caps, size)
    ensures var r := SetMode(d, k, j, size, hw, o);
      var crtcs := if r.ok then r.device.crtcs[j := r.device.crtcs[j].(max := size)] else r.device.crtcs;
      SoundKernel(crtcs, r.kernel) && SoundCrtcs(r.device.(crtcs := crtcs), caps)
  {
    SetModeSound(d, k, j, size, hw, o);
    SetModeShape(d, k, j, size, hw, o);
    var r := SetMode(d, k, j, size, hw, o);
    SoundSame(r.device.crtcs, r.device.crtcs[j := r.device.crtcs[j].(max := size)], r.kernel);
  }

  lemma ChangeKeeps(d: Device, k: Resources, configured: Size, size: Size, path: nat, hw: Hardware, o: Outcome, caps: Caps)
    requires Known(d.connectors, hw) && SoundCrtcs(d, caps) && SoundKernel(d.crtcs, k) && ValidMode(caps, size)
    ensures var c := ChangeMode(d, k, configured, size, path, hw, o);
      SoundCrtcs(c.device, caps) && SoundKernel(c.device.crtcs, c.kernel)
  {
    var (conns, id) := PathCrtc(d.connectors, hw, path, 0);
    var j := CrtcIndex(d.crtcs, id, 0);
    if j < |d.crtcs| {
      ChangeSound(d.(connectors := conns), k, configured, j, size, hw, o, caps);
    }
  }

  /** Every event keeps the invariant. */
  lemma StepKeeps(s: System, caps: Caps, e: Event)
    requires ValidEvent(s.device, e) && Invariant(s, caps)
    ensures Invariant(Step(s, caps, e), caps)
  {
    match e {
      case Hotplug(known, hw) =>
        PassKeeps(s.device, hw, caps);
        SoundSame(s.device.crtcs, Pass(s.device, hw, caps.max).crtcs, s.kernel);
      case Resolution(win, path, hw, o) =>
        if ValidMode(caps, win) {
          var d := s.device.(connectors := RefreshAll(s.device.connectors, hw));
          if PluggedCount(s.device.connectors, hw, |s.device.connectors|) > path {
            ChangeKeeps(d, s.kernel, s.configured, win, path, hw, o, caps);
          }
        }
      case Connect(wid) =>
      case Disconnect(wid) =>
    }
  }

  /** A hotplug is never skipped by the guard: afterwards every logical plane reports its CRTC's limit. */
  lemma HotplugUpdates(s: System, caps: Caps, hw: Hardware)
    requires Answers(hw, s.device) && Invariant(s, caps)
    ensures PlanesCurrent(Step(s, caps, Hotplug(true, hw)))
  {
    PassKeeps(s.device, hw, caps);
  }

  /** A second identical hotplug changes nothing at all. */
  lemma HotplugIdempotent(s: System, caps: Caps, hw: Hardware)
    requires Answers(hw, s.device) && Invariant(s, caps)
    ensures var once := Step(s, caps, Hotplug(true, hw));
      Answers(hw, once.device) && Step(once, caps, Hotplug(true, hw)) == once
  {
    PassIdempotent(s.device, hw, caps.max);
    PassKeeps(s.device, hw, caps);
    var once := Step(s, caps, Hotplug(true, hw));
    var twice := Step(once, caps, Hotplug(true, hw));
    assert twice.planes == once.planes;
  }

  /** A hotplug forgets every earlier mode change: what a taken CRTC drives, and its limits, depend on the hardware and the
      device's limits only, whatever size was configured and whatever state the service was in. */
  lemma HotplugForgets(s: System, s': System, caps: Caps, hw: Hardware, j: nat)
    requires Answers(hw, s.device) && Answers(hw, s'.device) && SameShape(s.device, s'.device)
    requires j < |s.device.crtcs| && Taker(s.device, hw, j).Some?
    ensures var c, c' := Step(s, caps, Hotplug(true, hw)).device.crtcs[j], Step(s', caps, Hotplug(true, hw)).device.crtcs[j];
      c.connectors == c'.connectors && c.max == c'.max && c.min == c'.min
  {
    HistoryIndependent(s.device, s'.device, hw, caps.max, j);
  }

  /** No event changes the planes, CRTCs or connectors that sinks name. */
  lemma SinkIdsFixed(s: System, caps: Caps, e: Event, wid: nat)
    requires ValidEvent(s.device, e)
    ensures var s' := Step(s, caps, e);
      && s'.sinks.Keys == s.sinks.Keys
      && (wid in s.sinks ==> s'.sinks[wid] == s.sinks[wid].(connected := s'.sinks[wid].connected))
  {
  }

  // ----- over whole runs -----

  /** Every event is answered by a kernel that knows the connectors. */
  ghost predicate ValidRun(d: Device, es: seq<Event>) {
    forall i :: 0 <= i < |es| ==> ValidEvent(d, es[i])
  }

  /** Events keep the ids of the device, so a run stays valid. */
  lemma StepShape(s: System, caps: Caps, e: Event)
    requires ValidEvent(s.device, e)
    ensures SameShape(s.device, Step(s, caps, e).device)
  {
    match e {
      case Resolution(win, path, hw, o) =>
        if ValidMode(caps, win) {
          var d := s.device.(connectors := RefreshAll(s.device.connectors, hw));
          if PluggedCount(s.device.connectors, hw, |s.device.connectors|) > path {
            ChangeShape(d, s.kernel, s.configured, win, path, hw, o);
          }
        }
      case _ =>
    }
  }

  lemma ChangeShape(d: Device, k: Resources, configured: Size, size: Size, path: nat, hw: Hardware, o: Outcome)
    requires Known(d.connectors, hw)
    ensures SameShape(d, ChangeMode(d, k, configured, size, path, hw, o).device)
  {
    var (conns, id) := PathCrtc(d.connectors, hw, path, 0);
    var d1 := d.(connectors := conns);
    var j := CrtcIndex(d.crtcs, id, 0);
    if j < |d.crtcs| {
      SetModeShape(d1, k, j, size, hw, o);
    }
  }

  lemma ValidSame(d: Device, d': Device, e: Event)
    requires SameShape(d, d')
    ensures ValidEvent(d, e) <==> ValidEvent(d', e)
  {
  }

  lemma ShapeTrans(a: Device, b: Device, c: Device)
    requires SameShape(a, b) && SameShape(b, c)
    ensures SameShape(a, c)
  {
  }

  /** The state after a run of events, with the proof that the run is defined. */
  ghost function Run(s: System, caps: Caps, es: seq<Event>): (s': System)
    requires ValidRun(s.device, es)
    ensures SameShape(s.device, s'.device)
    decreases |es|
  {
    if es == [] then s
    else
      assert ValidRun(s.device, es[..|es| - 1]);
      var mid := Run(s, caps, es[..|es| - 1]);
      ValidSame(s.device, mid.device, es[|es| - 1]);
      StepShape(mid, caps, es[|es| - 1]);
      ShapeTrans(s.device, mid.device, Step(mid, caps, es[|es| - 1]).device);
      Step(mid, caps, es[|es| - 1])
  }

  /** The invariant holds after every run, failures included. */
  lemma {:induction false} RunKeeps(s: System, caps: Caps, es: seq<Event>)
    requires ValidRun(s.device, es) && Invariant(s, caps)
    ensures Invariant(Run(s, caps, es), caps)
    decreases |es|
  {
    if es != [] {
      RunKeeps(s, caps, es[..|es| - 1]);
      var mid := Run(s, caps, es[..|es| - 1]);
      ValidSame(s.device, mid.device, es[|es| - 1]);
      StepKeeps(mid, caps, es[|es| - 1]);
    }
  }

  /** On every run sinks keep the plane, CRTC and connector they were made with. */
  lemma {:induction false} RunKeepsSinks(s: System, caps: Caps, es: seq<Event>, wid: nat)
    requires ValidRun(s.device, es) && wid in s.sinks
    ensures var s' := Run(s, caps, es); wid in s'.sinks && s'.sinks[wid] == s.sinks[wid].(connected := s'.sinks[wid].connected)
    decreases |es|
  {
    if es != [] {
      RunKeepsSinks(s, caps, es[..|es| - 1], wid);
      var mid := Run(s, caps, es[..|es| - 1]);
      ValidSame(s.device, mid.device, es[|es| - 1]);
      SinkIdsFixed(mid, caps, es[|es| - 1], wid);
    }
  }

  // ----- after construction -----

  /** A card and a kernel before first use. */
  ghost predicate Unopened(d: Device, k: Resources) {
    && Unused(d) && k == EMPTY
    && forall j :: 0 <= j < |d.crtcs| ==> d.crtcs[j].bo.None? && d.crtcs[j].fb == 0 && d.crtcs[j].max == Size(0, 0)
  }

  /** What one mode set keeps, all of construction keeps. */
  lemma {:induction false} BootInduction(inv: ((Device, Resources)) -> bool, d: Device, k: Resources, hw: Hardware, os: seq<Outcome>, n: nat)
    requires Answers(hw, d) && n <= |d.crtcs| && |os| == |d.crtcs| && inv((d, k))
    requires forall s: (Device, Resources), j: nat, o :: j < |s.0.crtcs| && Known(s.0.connectors, hw) && o in os && inv(s) ==>
      inv(BootMode(s, hw, j, o))
    ensures inv(BootModes(d, k, hw, os, n))
  {
    if n > 0 {
      BootInduction(inv, d, k, hw, os, n - 1);
      var s := BootModes(d, k, hw, os, n - 1);
      assert inv(BootMode(s, hw, n - 1, os[n - 1]));
    }
  }

  lemma BootSound(d: Device, k: Resources, hw: Hardware, os: seq<Outcome>, n: nat)
    requires Answers(hw, d) && n <= |d.crtcs| && |os| == |d.crtcs| && SoundState((d, k))
    ensures SoundState(BootModes(d, k, hw, os, n))
  {
    forall s: (Device, Resources), j: nat, o | j < |s.0.crtcs| && Known(s.0.connectors, hw) && SoundState(s)
      ensures SoundState(BootMode(s, hw, j, o))
    {
      BootSoundStep(s, hw, j, o);
    }
    BootInduction(s => SoundState(s), d, k, hw, os, n);
  }

  ghost predicate SoundState(s: (Device, Resources)) {
    SoundKernel(s.0.crtcs, s.1)
  }

  lemma BootSoundStep(s: (Device, Resources), hw: Hardware, j: nat, o: Outcome)
    requires j < |s.0.crtcs| && Known(s.0.connectors, hw) && SoundState(s)
    ensures SoundState(BootMode(s, hw, j, o))
  {
    SetModeSound(s.0, s.1, j, s.0.crtcs[j].max, hw, o);
  }

  lemma UnopenedSound(crtcs: seq<Crtc>)
    requires forall j :: 0 <= j < |crtcs| ==> crtcs[j].bo.None? && crtcs[j].fb == 0
    ensures SoundKernel(crtcs, EMPTY)
  {
  }

  /** An update under guarded limits leaves every logical plane current. */
  lemma UpdateIsCurrent(s: System, before: seq<LogicalPlane>, caps: Caps)
    requires s.planes == UpdatePlanes(before, s.device, s.sinks, caps) && SoundCrtcs(s.device, caps)
    ensures PlanesCurrent(s)
  {
  }

  lemma BootDevice(d0: Device, caps: Caps, hw: Hardware, os: seq<Outcome>)
    requires Answers(hw, d0) && |os| == |d0.crtcs| && Unopened(d0, EMPTY)
    ensures var (d, k) := BootModes(Pass(d0, hw, caps.max), EMPTY, hw, os, |d0.crtcs|);
      SoundCrtcs(d, caps) && SoundKernel(d.crtcs, k)
  {
    var d := Pass(d0, hw, caps.max);
    UnopenedSound(d0.crtcs);
    PassKeeps(d0, hw, caps);
    SoundSame(d0.crtcs, d.crtcs, EMPTY);
    BootSound(d, EMPTY, hw, os, |d0.crtcs|);
    BootShape(d, EMPTY, hw, os, |d0.crtcs|);
  }

  /** Construction establishes the invariant, with every logical plane current. */
  lemma BootEstablishes(d0: Device, caps: Caps, hw: Hardware, os: seq<Outcome>, count: nat)
    requires Answers(hw, d0) && Indexed(d0) && |os| == |d0.crtcs| && Unopened(d0, EMPTY)
    ensures Invariant(Boot(d0, EMPTY, caps, hw, os, count), caps) && PlanesCurrent(Boot(d0, EMPTY, caps, hw, os, count))
  {
    BootDevice(d0, caps, hw, os);
    var s := Boot(d0, EMPTY, caps, hw, os, count);
    UpdateIsCurrent(s, FreshPlanes(caps, count), caps);
  }

  lemma {:induction false} PlanesListSame(d: Device, d': Device, n: nat)
    requires Indexed(d) && Indexed(d') && SameBindings(d, d') && n <= |d.crtcs|
    ensures PlanesList(d, n) == PlanesList(d', n)
  {
    if n > 0 {
      PlanesListSame(d, d', n - 1);
      assert SameLimits(d.crtcs[n - 1], d'.crtcs[n - 1]);
    }
  }

  lemma ResolvesSame(d: Device, d': Device, id: nat)
    requires SameBindings(d, d')
    ensures PlaneCrtc(d, id) == PlaneCrtc(d', id) && PlaneConnector(d, id) == PlaneConnector(d', id)
  {
    var p := PlaneIndex(d.planes, id, 0);
    FirstSame(d.crtcs, d'.crtcs, CrtcWithIndex(if p < |d.planes| then LowestBit(d.planes[p].possibleCrtcs) else 0), 0);
    FirstSame(d.connectors, d'.connectors, BoundToCrtc(PlaneCrtc(d, id)), 0);
  }

  /** Sinks are decided by bindings, not by the mode sets that follow the first pass. */
  lemma SinkSame(d: Device, d': Device, wid: nat)
    requires Indexed(d) && Indexed(d') && SameBindings(d, d')
    ensures SinkFor(d, wid) == SinkFor(d', wid)
  {
    PlanesListSame(d, d', |d.crtcs|);
    var list := PlanesList(d, |d.crtcs|);
    if wid < |list| {
      ResolvesSame(d, d', list[wid]);
    }
  }

  /** The sinks of a constructed service are those of the first pass over the card. */
  lemma BootSinks(d0: Device, caps: Caps, hw: Hardware, os: seq<Outcome>, count: nat, wid: nat)
    requires Answers(hw, d0) && Indexed(d0) && |os| == |d0.crtcs| && wid < count
    ensures var s, d := Boot(d0, EMPTY, caps, hw, os, count), Pass(d0, hw, caps.max);
      Indexed(d) && wid in s.sinks && s.sinks[wid] == SinkFor(d, wid)
  {
    var d := Pass(d0, hw, caps.max);
    BootShape(d, EMPTY, hw, os, |d0.crtcs|);
    SinkSame(d, BootModes(d, EMPTY, hw, os, |d0.crtcs|).0, wid);
  }

  /** From construction on, over any run of events: limits stay inside the guard, no CRTC drives two connectors, buffers
      are conserved, every mode set is sound, and no more buffers are live than there are CRTCs. */
  lemma ServiceSafe(d0: Device, caps: Caps, hw: Hardware, os: seq<Outcome>, count: nat, es: seq<Event>)
    requires Answers(hw, d0) && Indexed(d0) && |os| == |d0.crtcs| && Unopened(d0, EMPTY)
    requires ValidRun(Boot(d0, EMPTY, caps, hw, os, count).device, es)
    ensures var s := Run(Boot(d0, EMPTY, caps, hw, os, count), caps, es);
      Invariant(s, caps) && |s.kernel.bos| <= |d0.crtcs|
  {
    var s0 := Boot(d0, EMPTY, caps, hw, os, count);
    BootEstablishes(d0, caps, hw, os, count);
    BootShape(Pass(d0, hw, caps.max), EMPTY, hw, os, |d0.crtcs|);
    RunKeeps(s0, caps, es);
    var s := Run(s0, caps, es);
    LiveAtMostCrtcs(s.device.crtcs, s.kernel.bos.Keys);
    assert |s.kernel.bos| == |s.kernel.bos.Keys|;
  }

  // ----- while every request is granted -----

  /** No request was stray, and every CRTC with a buffer holds a live one. */
  ghost predicate Healthy(crtcs: seq<Crtc>, k: Resources) {
    SoundKernel(crtcs, k) && k.strays == 0 && forall j :: 0 <= j < |crtcs| && crtcs[j].bo.Some? ==> Live(crtcs[j], k)
  }

  lemma LiveSame(c: Crtc, k: Resources, c': Crtc, k': Resources)
    requires Live(c, k) && c'.bo == c.bo && c'.fb == c.fb && k' == k.(sets := k'.sets)
    ensures Live(c', k')
  {
  }

  lemma SetModeHealthy(d: Device, k: Resources, j: nat, size: Size, hw: Hardware, o: Outcome)
    requires j < |d.crtcs| && Known(d.connectors, hw) && Healthy(d.crtcs, k) && Good(o)
    ensures var r := SetMode(d, k, j, size, hw, o); Healthy(r.device.crtcs, r.kernel)
  {
    SetModeSound(d, k, j, size, hw, o);
    SetModeKernel(d, k, j, size, hw, o);
    var r := SetMode(d, k, j, size, hw, o);
    var k1 := KernelAfter(d.crtcs[j], k, size, o);
    ScanoutStep(d.crtcs[j], k, size, o);
    if OneCall(d, k, j, size, o, r) {
      forall i | 0 <= i < |d.crtcs| && r.device.crtcs[i].bo.Some?
        ensures Live(r.device.crtcs[i], r.kernel)
      {
        if i != j {
          OthersKept(d.crtcs[j], k, size, o, d.crtcs[i]);
        }
        LiveSame(r.device.crtcs[i], k1, r.device.crtcs[i], r.kernel);
      }
    }
  }

  lemma HealthySame(crtcs: seq<Crtc>, crtcs': seq<Crtc>, k: Resources)
    requires Healthy(crtcs, k) && |crtcs'| == |crtcs|
    requires forall j :: 0 <= j < |crtcs| ==> crtcs'[j].bo == crtcs[j].bo && crtcs'[j].fb == crtcs[j].fb
    ensures Healthy(crtcs', k)
  {
    SoundSame(crtcs, crtcs', k);
    forall j | 0 <= j < |crtcs'| && crtcs'[j].bo.Some?
      ensures Live(crtcs'[j], k)
    {
      LiveSame(crtcs[j], k, crtcs'[j], k);
    }
  }

  lemma ChangeHealthy(d: Device, k: Resources, configured: Size, size: Size, path: nat, hw: Hardware, o: Outcome)
    requires Known(d.connectors, hw) && Healthy(d.crtcs, k) && Good(o)
    ensures var c := ChangeMode(d, k, configured, size, path, hw, o); Healthy(c.device.crtcs, c.kernel)
  {
    var (conns, id) := PathCrtc(d.connectors, hw, path, 0);
    var d1 := d.(connectors := conns);
    var j := CrtcIndex(d.crtcs, id, 0);
    if j < |d.crtcs| {
      SetModeHealthy(d1, k, j, size, hw, o);
      var r := SetMode(d1, k, j, size, hw, o);
      HealthySame(r.device.crtcs, r.device.crtcs[j := r.device.crtcs[j].(max := size)], r.kernel);
    }
  }

  predicate Granted(e: Event) {
    e.Resolution? ==> Good(e.outcome)
  }

  /** An event whose requests are granted keeps the service healthy. */
  lemma StepHealthy(s: System, caps: Caps, e: Event)
    requires ValidEvent(s.device, e) && Granted(e) && SoundCrtcs(s.device, caps) && Healthy(s.device.crtcs, s.kernel)
    ensures var s' := Step(s, caps, e); Healthy(s'.device.crtcs, s'.kernel)
  {
    match e {
      case Hotplug(known, hw) =>
        PassKeeps(s.device, hw, caps);
        HealthySame(s.device.crtcs, Pass(s.device, hw, caps.max).crtcs, s.kernel);
      case Resolution(win, path, hw, o) =>
        if ValidMode(caps, win) {
          var d := s.device.(connectors := RefreshAll(s.device.connectors, hw));
          if PluggedCount(s.device.connectors, hw, |s.device.connectors|) > path {
            ChangeHealthy(d, s.kernel, s.configured, win, path, hw, o);
          }
        }
      case _ =>
    }
  }

  /** On a run whose requests are all granted, nothing is destroyed twice and every CRTC's buffer is live. */
  lemma {:induction false} RunHealthy(s: System, caps: Caps, es: seq<Event>)
    requires ValidRun(s.device, es) && Invariant(s, caps) && Healthy(s.device.crtcs, s.kernel)
    requires forall i :: 0 <= i < |es| ==> Granted(es[i])
    ensures var s' := Run(s, caps, es); Healthy(s'.device.crtcs, s'.kernel)
    decreases |es|
  {
    if es != [] {
      var front := es[..|es| - 1];
      RunHealthy(s, caps, front);
      RunKeeps(s, caps, front);
      var mid := Run(s, caps, front);
      ValidSame(s.device, mid.device, es[|es| - 1]);
      StepHealthy(mid, caps, es[|es| - 1]);
    }
  }

  lemma BootModeHealthy(s: (Device, Resources), hw: Hardware, j: nat, o: Outcome)
    requires j < |s.0.crtcs| && Known(s.0.connectors, hw) && Healthy(s.0.crtcs, s.1) && Good(o)
    ensures var r := BootMode(s, hw, j, o); Healthy(r.0.crtcs, r.1)
  {
    SetModeHealthy(s.0, s.1, j, s.0.crtcs[j].max, hw, o);
  }

  /** Construction whose requests are all granted leaves the service healthy. */
  lemma BootHealthy(d0: Device, caps: Caps, hw: Hardware, os: seq<Outcome>, count: nat)
    requires Answers(hw, d0) && Indexed(d0) && |os| == |d0.crtcs| && Unopened(d0, EMPTY)
    requires forall i :: 0 <= i < |os| ==> Good(os[i])
    ensures var s := Boot(d0, EMPTY, caps, hw, os, count); Healthy(s.device.crtcs, s.kernel)
  {
    var d := Pass(d0, hw, caps.max);
    UnopenedSound(d0.crtcs);
    PassKeeps(d0, hw, caps);
    SoundSame(d0.crtcs, d.crtcs, EMPTY);
    forall s: (Device, Resources), j: nat, o | j < |s.0.crtcs| && Known(s.0.connectors, hw) && o in os && Healthy(s.0.crtcs, s.1)
      ensures Healthy(BootMode(s, hw, j, o).0.crtcs, BootMode(s, hw, j, o).1)
    {
      BootModeHealthy(s, hw, j, o);
    }
    BootInduction((s: (Device, Resources)) => Healthy(s.0.crtcs, s.1), d, EMPTY, hw, os, |d0.crtcs|);
  }

  /** In a healthy service the live buffers and framebuffers are exactly those the CRTCs hold. */
  lemma HealthyIsExact(crtcs: seq<Crtc>, k: Resources)
    requires Healthy(crtcs, k)
    ensures forall b :: b in k.bos <==> exists j :: 0 <= j < |crtcs| && crtcs[j].bo == Some(b)
    ensures forall f :: f in k.fbs <==> f != 0 && exists j :: 0 <= j < |crtcs| && crtcs[j].fb == f
  {
  }
}
