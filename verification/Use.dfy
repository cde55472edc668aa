/** What the users of the service see over whole runs: connected sinks, logical planes, and the sizes that are set. */
module ServiceUse {
  import opened Drm
  import opened DeviceModel
  import opened ModeSetting
  import opened Scanout
  import opened Sinks
  import opened SystemModel
  import opened ResolutionChanges

  // ----- connections -----

  /** connect marks its sink as connected, disconnect as not connected; no other sink changes, and nothing else does. */
  lemma TogglesSink(s: System, caps: Caps, wid: nat, w: nat)
    ensures var on, off := Step(s, caps, Connect(wid)), Step(s, caps, Disconnect(wid));
      && on == s.(sinks := on.sinks) && off == s.(sinks := off.sinks)
      && on.sinks.Keys == off.sinks.Keys == s.sinks.Keys
      && (wid in s.sinks ==> on.sinks[wid].connected && !off.sinks[wid].connected)
      && (w in s.sinks && w != wid ==> on.sinks[w] == s.sinks[w] && off.sinks[w] == s.sinks[w])
  {
  }

  /** Whether a sink is connected after some events: its last connect or disconnect decides. */
  function ConnectedAfter(es: seq<Event>, wid: nat, before: bool): bool {
    if es == [] then before
    else if es[|es| - 1] == Connect(wid) then true
    else if es[|es| - 1] == Disconnect(wid) then false
    else ConnectedAfter(es[..|es| - 1], wid, before)
  }

  lemma StepConnected(s: System, caps: Caps, e: Event, wid: nat)
    requires ValidEvent(s.device, e) && wid in s.sinks
    ensures wid in Step(s, caps, e).sinks
    ensures Step(s, caps, e).sinks[wid].connected ==
      if e == Connect(wid) then true else if e == Disconnect(wid) then false else s.sinks[wid].connected
  {
    match e {
      case Connect(w) => TogglesSink(s, caps, w, wid);
      case Disconnect(w) => TogglesSink(s, caps, w, wid);
      case _ =>
    }
  }

  /** On every run. */
  lemma {:induction false} RunConnected(s: System, caps: Caps, es: seq<Event>, wid: nat)
    requires SystemModel.ValidRun(s.device, es) && wid in s.sinks
    ensures var s' := SystemModel.Run(s, caps, es);
      wid in s'.sinks && s'.sinks[wid].connected == ConnectedAfter(es, wid, s.sinks[wid].connected)
    decreases |es|
  {
    if es != [] {
      var front := es[..|es| - 1];
      RunConnected(s, caps, front, wid);
      var mid := SystemModel.Run(s, caps, front);
      ValidSame(s.device, mid.device, es[|es| - 1]);
      StepConnected(mid, caps, es[|es| - 1], wid);
    }
  }

  // ----- logical planes -----

  /** The logical planes have the same numbers and report the same smallest sizes. */
  ghost predicate SamePlanes(a: seq<LogicalPlane>, b: seq<LogicalPlane>) {
    |a| == |b| && forall i :: 0 <= i < |a| ==> a[i].wid == b[i].wid && a[i].min == b[i].min
  }

  lemma {:induction false} RunSamePlanes(s: System, caps: Caps, es: seq<Event>)
    requires SystemModel.ValidRun(s.device, es)
    ensures SamePlanes(s.planes, SystemModel.Run(s, caps, es).planes)
    decreases |es|
  {
    if es != [] {
      var front := es[..|es| - 1];
      RunSamePlanes(s, caps, front);
      var mid := SystemModel.Run(s, caps, front);
      ValidSame(s.device, mid.device, es[|es| - 1]);
      StepSamePlanes(mid, caps, es[|es| - 1]);
    }
  }

  lemma StepSamePlanes(s: System, caps: Caps, e: Event)
    requires ValidEvent(s.device, e)
    ensures SamePlanes(s.planes, Step(s, caps, e).planes)
  {
  }

  /** From construction on, over any run: logical plane `i` has number `i` and reports the smallest size of the device. */
  lemma ServicePlanes(d0: Device, caps: Caps, hw: Hardware, os: seq<Outcome>, count: nat, es: seq<Event>, i: nat)
    requires Answers(hw, d0) && Indexed(d0) && |os| == |d0.crtcs| && i < count
    requires SystemModel.ValidRun(Boot(d0, EMPTY, caps, hw, os, count).device, es)
    ensures var s := SystemModel.Run(Boot(d0, EMPTY, caps, hw, os, count), caps, es);
      |s.planes| == count && s.planes[i].wid == i && s.planes[i].min == caps.min && i in s.sinks
  {
    var s0 := Boot(d0, EMPTY, caps, hw, os, count);
    RunSamePlanes(s0, caps, es);
    assert s0.planes[i].wid == i && s0.planes[i].min == caps.min;
    BootSinks(d0, caps, hw, os, count, i);
    RunKeepsSinks(s0, caps, es, i);
  }

  // ----- sizes that are set -----

  /** Every mode set from number `n` on has a framebuffer that is neither smaller nor larger than the device allows. */
  ghost predicate InLimits(k: Resources, n: nat, caps: Caps) {
    forall i :: n <= i < |k.sets| ==>
      && k.sets[i].fbSize.Some?
      && caps.min.w <= k.sets[i].fbSize.value.w <= caps.max.w
      && caps.min.h <= k.sets[i].fbSize.value.h <= caps.max.h
  }

  /** The mode sets of `k` are the first ones of `k'`. */
  predicate Extends(k: Resources, k': Resources) {
    |k.sets| <= |k'.sets| && k'.sets[..|k.sets|] == k.sets
  }

  lemma SetModeInLimits(d: Device, k: Resources, j: nat, size: Size, hw: Hardware, o: Outcome, caps: Caps)
    requires j < |d.crtcs| && Known(d.connectors, hw) && SoundKernel(d.crtcs, k)
    requires caps.min.w <= size.w <= caps.max.w && caps.min.h <= size.h <= caps.max.h
    ensures var k' := SetMode(d, k, j, size, hw, o).kernel; Extends(k, k') && InLimits(k', |k.sets|, caps)
  {
    SetModeCoherent(d, k, j, size, hw, o);
  }

  lemma StepInLimits(s: System, caps: Caps, e: Event)
    requires ValidEvent(s.device, e) && Invariant(s, caps)
    ensures var k' := Step(s, caps, e).kernel; Extends(s.kernel, k') && InLimits(k', |s.kernel.sets|, caps)
  {
    match e {
      case Resolution(win, path, hw, o) =>
        var j := ChangedCrtc(s.device, hw, path);
        if j < |s.device.crtcs| && ValidMode(caps, win) {
          var conns := PathCrtc(RefreshAll(s.device.connectors, hw), hw, path, 0).0;
          SetModeInLimits(s.device.(connectors := conns), s.kernel, j, win, hw, o, caps);
        }
      case _ =>
    }
  }

  /** Over any run of events, failures included, no size outside the device's limits is ever set. */
  lemma {:induction false} RunInLimits(s: System, caps: Caps, es: seq<Event>)
    requires SystemModel.ValidRun(s.device, es) && Invariant(s, caps)
    ensures var k' := SystemModel.Run(s, caps, es).kernel; Extends(s.kernel, k') && InLimits(k', |s.kernel.sets|, caps)
    decreases |es|
  {
    if es != [] {
      var front := es[..|es| - 1];
      RunInLimits(s, caps, front);
      RunKeeps(s, caps, front);
      var mid := SystemModel.Run(s, caps, front);
      ValidSame(s.device, mid.device, es[|es| - 1]);
      StepInLimits(mid, caps, es[|es| - 1]);
      LimitsTrans(s.kernel, mid.kernel, Step(mid, caps, es[|es| - 1]).kernel, caps);
    }
  }

  lemma LimitsTrans(k: Resources, k': Resources, k'': Resources, caps: Caps)
    requires Extends(k, k') && InLimits(k', |k.sets|, caps) && Extends(k', k'') && InLimits(k'', |k'.sets|, caps)
    ensures Extends(k, k'') && InLimits(k'', |k.sets|, caps)
  {
    assert k''.sets[..|k.sets|] == k''.sets[..|k'.sets|][..|k.sets|];
    forall i | |k.sets| <= i < |k'.sets|
      ensures k''.sets[i] == k'.sets[i]
    {
      assert k''.sets[i] == k''.sets[..|k'.sets|][i];
    }
  }
}
