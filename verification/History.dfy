/** The scanout calls and mode sets of a whole run of the service. */
module ServiceHistory {
  import opened Formats
  import opened Drm
  import opened DeviceModel
  import opened ModeSetting
  import opened SystemModel
  import opened ResolutionChanges
  import Scanout
  import Sinks

  // ----- a run of the service makes a run of scanout calls -----

  /** The calls of createScanoutFb, made on new CRTCs, give these handles and this kernel up to its mode sets. */
  ghost predicate Follows(crtcs0: seq<Crtc>, calls: seq<Scanout.Call>, crtcs: seq<Crtc>, k: Resources) {
    && Scanout.ValidRun(crtcs0, calls) && |crtcs| == |crtcs0|
    && var (cs, r) := Scanout.Run(crtcs0, EMPTY, calls, |calls|);
       SameHandles(cs, crtcs) && r.(sets := []) == k.(sets := [])
  }

  ghost predicate SameHandles(a: seq<Crtc>, b: seq<Crtc>) {
    |a| == |b| && forall j :: 0 <= j < |a| ==> a[j].bo == b[j].bo && a[j].fb == b[j].fb
  }

  /** Calls after the first `n` do not matter to what the first `n` did. */
  lemma {:induction false} RunPrefix(crtcs0: seq<Crtc>, calls: seq<Scanout.Call>, more: seq<Scanout.Call>, n: nat)
    requires n <= |calls| && Scanout.ValidRun(crtcs0, calls) && Scanout.ValidRun(crtcs0, calls + more)
    ensures Scanout.Run(crtcs0, EMPTY, calls + more, n) == Scanout.Run(crtcs0, EMPTY, calls, n)
  {
    if n > 0 {
      RunPrefix(crtcs0, calls, more, n - 1);
    }
  }

  /** One more call keeps the correspondence. */
  lemma FollowsCall(crtcs0: seq<Crtc>, calls: seq<Scanout.Call>, crtcs: seq<Crtc>, k: Resources, c: Scanout.Call,
                    crtcs': seq<Crtc>, k': Resources)
    requires Follows(crtcs0, calls, crtcs, k) && c.crtc < |crtcs|
    requires SameHandles(crtcs', crtcs[c.crtc := Scanout.CrtcWithScanout(crtcs[c.crtc], k, c.outcome)])
    requires k'.(sets := []) == Scanout.KernelAfter(crtcs[c.crtc], k, c.size, c.outcome).(sets := [])
    ensures Follows(crtcs0, calls + [c], crtcs', k')
  {
    RunPrefix(crtcs0, calls, [c], |calls|);
    var (cs, r) := Scanout.Run(crtcs0, EMPTY, calls, |calls|);
    assert (calls + [c])[|calls|] == c;
    HandlesStep(cs[c.crtc], r, crtcs[c.crtc], k, c.size, c.outcome);
  }

  /** A call depends on the handles of its CRTC and the live objects only. */
  lemma HandlesStep(c: Crtc, k: Resources, c': Crtc, k': Resources, size: Size, o: Scanout.Outcome)
    requires c.bo == c'.bo && c.fb == c'.fb && k.(sets := []) == k'.(sets := [])
    ensures Scanout.CrtcWithScanout(c, k, o).bo == Scanout.CrtcWithScanout(c', k', o).bo
    ensures Scanout.CrtcWithScanout(c, k, o).fb == Scanout.CrtcWithScanout(c', k', o).fb
    ensures Scanout.KernelAfter(c, k, size, o).(sets := []) == Scanout.KernelAfter(c', k', size, o).(sets := [])
  {
  }

  /** A step without a call keeps it too. */
  lemma FollowsSame(crtcs0: seq<Crtc>, calls: seq<Scanout.Call>, crtcs: seq<Crtc>, k: Resources, crtcs': seq<Crtc>, k': Resources)
    requires Follows(crtcs0, calls, crtcs, k) && SameHandles(crtcs, crtcs') && k'.(sets := []) == k.(sets := [])
    ensures Follows(crtcs0, calls, crtcs', k')
  {
  }

  /** setActiveMode calls createScanoutFb exactly when the mode is settable. */
  lemma SetModeCalls(d: Device, k: Resources, j: nat, size: Size, hw: Hardware, o: Scanout.Outcome)
    requires j < |d.crtcs| && Known(d.connectors, hw)
    ensures var r := SetMode(d, k, j, size, hw, o);
      if Settable(d.crtcs[j], d.connectors, size, hw) then OneCall(d, k, j, size, o, r) else r.kernel == k && r.device.crtcs == d.crtcs
  {
    CheckDecides(d.crtcs[j], d.connectors, size, hw);
  }

  ghost function ModeCalls(d: Device, j: nat, size: Size, hw: Hardware, o: Scanout.Outcome): seq<Scanout.Call>
    requires j < |d.crtcs| && Known(d.connectors, hw)
  {
    if Settable(d.crtcs[j], d.connectors, size, hw) then [Scanout.Call(j, size, o)] else []
  }

  lemma FollowsMode(crtcs0: seq<Crtc>, calls: seq<Scanout.Call>, d: Device, k: Resources, j: nat, size: Size, hw: Hardware, o: Scanout.Outcome)
    requires j < |d.crtcs| && Known(d.connectors, hw) && Follows(crtcs0, calls, d.crtcs, k)
    ensures var r := SetMode(d, k, j, size, hw, o);
      Follows(crtcs0, calls + ModeCalls(d, j, size, hw, o), r.device.crtcs, r.kernel)
  {
    SetModeCalls(d, k, j, size, hw, o);
    var r := SetMode(d, k, j, size, hw, o);
    if Settable(d.crtcs[j], d.connectors, size, hw) {
      FollowsCall(crtcs0, calls, d.crtcs, k, Scanout.Call(j, size, o), r.device.crtcs, r.kernel);
    } else {
      assert calls + [] == calls;
    }
  }

  /** The calls of the first `n` mode sets of construction. */
  ghost function BootCalls(d: Device, hw: Hardware, os: seq<Scanout.Outcome>, n: nat): seq<Scanout.Call>
    requires Answers(hw, d) && n <= |d.crtcs| == |os|
  {
    if n == 0 then []
    else
      BootCalls(d, hw, os, n - 1) + ModeCalls(d, n - 1, d.crtcs[n - 1].max, hw, os[n - 1])
  }

  ghost predicate FollowsState(crtcs0: seq<Crtc>, calls: seq<Scanout.Call>, s: (Device, Resources)) {
    Follows(crtcs0, calls, s.0.crtcs, s.1)
  }

  lemma {:induction false} FollowsBoot(d: Device, hw: Hardware, os: seq<Scanout.Outcome>, n: nat)
    requires Answers(hw, d) && n <= |d.crtcs| == |os|
    ensures FollowsState(d.crtcs, BootCalls(d, hw, os, n), BootModes(d, EMPTY, hw, os, n))
  {
    if n > 0 {
      FollowsBoot(d, hw, os, n - 1);
      BootShape(d, EMPTY, hw, os, n - 1);
      var s, calls := BootModes(d, EMPTY, hw, os, n - 1), BootCalls(d, hw, os, n - 1);
      var more := ModeCalls(d, n - 1, d.crtcs[n - 1].max, hw, os[n - 1]);
      var t := BootMode(s, hw, n - 1, os[n - 1]);
      assert BootModes(d, EMPTY, hw, os, n) == t && BootCalls(d, hw, os, n) == calls + more;
      FollowsBootMode(d, s, t, hw, n - 1, os[n - 1], calls, more);
    }
  }

  lemma FollowsBootMode(d: Device, s: (Device, Resources), t: (Device, Resources), hw: Hardware, j: nat, o: Scanout.Outcome,
                        calls: seq<Scanout.Call>, more: seq<Scanout.Call>)
    requires Answers(hw, d) && SameBindings(d, s.0) && j < |d.crtcs| && FollowsState(d.crtcs, calls, s)
    requires Known(s.0.connectors, hw) && t == BootMode(s, hw, j, o) && more == ModeCalls(d, j, d.crtcs[j].max, hw, o)
    ensures FollowsState(d.crtcs, calls + more, t)
  {
    var c, c1 := d.crtcs[j], s.0.crtcs[j];
    assert SameLimits(c, c1);
    SettableSame(c, d.connectors, s.0.connectors, c.max, hw);
    assert Settable(c1, s.0.connectors, c.max, hw) == Settable(c, s.0.connectors, c.max, hw);
    FollowsMode(d.crtcs, calls, s.0, s.1, j, c.max, hw, o);
  }

  /** The call that an event makes, if any. */
  ghost function EventCalls(s: System, caps: Caps, e: Event): (calls: seq<Scanout.Call>)
    requires ValidEvent(s.device, e)
  {
    match e
    case Resolution(win, path, hw, o) =>
      if Attempts(s, caps, win, path, hw) then [Scanout.Call(ChangedCrtc(s.device, hw, path), win, o)] else []
    case _ => []
  }

  /** The calls of a run of events. */
  ghost function RunCalls(s: System, caps: Caps, es: seq<Event>): seq<Scanout.Call>
    requires SystemModel.ValidRun(s.device, es)
    decreases |es|
  {
    if es == [] then []
    else
      var front, last := es[..|es| - 1], es[|es| - 1];
      assert SystemModel.ValidRun(s.device, front);
      ValidSame(s.device, SystemModel.Run(s, caps, front).device, last);
      RunCalls(s, caps, front) + EventCalls(SystemModel.Run(s, caps, front), caps, last)
  }

  lemma FollowsResolution(crtcs0: seq<Crtc>, calls: seq<Scanout.Call>, s: System, caps: Caps, win: Size, path: nat, hw: Hardware, o: Scanout.Outcome)
    requires Answers(hw, s.device) && Follows(crtcs0, calls, s.device.crtcs, s.kernel)
    ensures var e := Resolution(win, path, hw, o); var s' := Step(s, caps, e);
      Follows(crtcs0, calls + EventCalls(s, caps, e), s'.device.crtcs, s'.kernel)
  {
    assert calls + [] == calls;
    if ValidMode(caps, win) && PluggedCount(s.device.connectors, hw, |s.device.connectors|) > path {
      var j := ChangedCrtc(s.device, hw, path);
      if j < |s.device.crtcs| {
        var conns := PathCrtc(RefreshAll(s.device.connectors, hw), hw, path, 0).0;
        var d := s.device.(connectors := conns);
        SettableSame(d.crtcs[j], s.device.connectors, conns, win, hw);
        assert Attempts(s, caps, win, path, hw) == Settable(d.crtcs[j], conns, win, hw);
        FollowsChange(crtcs0, calls, d, s.kernel, j, win, hw, o);
      }
    }
  }

  /** What changeMode does on the CRTC it found. */
  lemma FollowsChange(crtcs0: seq<Crtc>, calls: seq<Scanout.Call>, d: Device, k: Resources, j: nat, win: Size, hw: Hardware, o: Scanout.Outcome)
    requires j < |d.crtcs| && Known(d.connectors, hw) && Follows(crtcs0, calls, d.crtcs, k)
    ensures var r := SetMode(d, k, j, win, hw, o);
      var crtcs := if r.ok then r.device.crtcs[j := r.device.crtcs[j].(max := win)] else r.device.crtcs;
      Follows(crtcs0, calls + ModeCalls(d, j, win, hw, o), crtcs, r.kernel)
  {
    var r := SetMode(d, k, j, win, hw, o);
    var after := calls + ModeCalls(d, j, win, hw, o);
    FollowsMode(crtcs0, calls, d, k, j, win, hw, o);
    FollowsSame(crtcs0, after, r.device.crtcs, r.kernel, r.device.crtcs[j := r.device.crtcs[j].(max := win)], r.kernel);
  }

  lemma FollowsStep(crtcs0: seq<Crtc>, calls: seq<Scanout.Call>, s: System, caps: Caps, e: Event)
    requires ValidEvent(s.device, e) && SoundCrtcs(s.device, caps) && Follows(crtcs0, calls, s.device.crtcs, s.kernel)
    ensures Follows(crtcs0, calls + EventCalls(s, caps, e), Step(s, caps, e).device.crtcs, Step(s, caps, e).kernel)
  {
    match e {
      case Resolution(win, path, hw, o) => FollowsResolution(crtcs0, calls, s, caps, win, path, hw, o);
      case Hotplug(known, hw) =>
        assert calls + [] == calls;
        PassKeeps(s.device, hw, caps);
      case _ => assert calls + [] == calls;
    }
  }

  /** The handles and the live objects after a run of events are those after its calls. */
  lemma {:induction false} FollowsRun(crtcs0: seq<Crtc>, calls: seq<Scanout.Call>, s: System, caps: Caps, es: seq<Event>)
    requires SystemModel.ValidRun(s.device, es) && Invariant(s, caps) && Follows(crtcs0, calls, s.device.crtcs, s.kernel)
    ensures var s' := SystemModel.Run(s, caps, es); Follows(crtcs0, calls + RunCalls(s, caps, es), s'.device.crtcs, s'.kernel)
    decreases |es|
  {
    if es == [] {
      assert calls + [] == calls;
    } else {
      var front, last := es[..|es| - 1], es[|es| - 1];
      FollowsRun(crtcs0, calls, s, caps, front);
      RunKeeps(s, caps, front);
      var mid := SystemModel.Run(s, caps, front);
      ValidSame(s.device, mid.device, last);
      var before, more := RunCalls(s, caps, front), EventCalls(mid, caps, last);
      FollowsStep(crtcs0, calls + before, mid, caps, last);
      assert calls + (before + more) == calls + before + more;
    }
  }

  /** All calls of createScanoutFb from construction on, in order. */
  ghost function History(d0: Device, caps: Caps, hw: Hardware, os: seq<Scanout.Outcome>, count: nat, es: seq<Event>): seq<Scanout.Call>
    requires Answers(hw, d0) && Sinks.Indexed(d0) && |os| == |d0.crtcs|
    requires SystemModel.ValidRun(Boot(d0, EMPTY, caps, hw, os, count).device, es)
  {
    BootCalls(Pass(d0, hw, caps.max), hw, os, |os|) + RunCalls(Boot(d0, EMPTY, caps, hw, os, count), caps, es)
  }

  /** From construction on, over any run: the handles of the CRTCs and the kernel's live objects are those that the calls
      of the history alone would leave. */
  lemma ServiceFollows(d0: Device, caps: Caps, hw: Hardware, os: seq<Scanout.Outcome>, count: nat, es: seq<Event>)
    requires Answers(hw, d0) && Sinks.Indexed(d0) && |os| == |d0.crtcs| && Unopened(d0, EMPTY)
    requires SystemModel.ValidRun(Boot(d0, EMPTY, caps, hw, os, count).device, es)
    ensures var s := SystemModel.Run(Boot(d0, EMPTY, caps, hw, os, count), caps, es);
      Follows(Pass(d0, hw, caps.max).crtcs, History(d0, caps, hw, os, count, es), s.device.crtcs, s.kernel)
  {
    var d := Pass(d0, hw, caps.max);
    FollowsBoot(d, hw, os, |os|);
    BootEstablishes(d0, caps, hw, os, count);
    FollowsRun(d.crtcs, BootCalls(d, hw, os, |os|), Boot(d0, EMPTY, caps, hw, os, count), caps, es);
  }

  /** A buffer or framebuffer of the service is destroyed twice exactly when its history uses a CRTC again after a failed
      call on it that was preceded by a successful one. */
  lemma ServiceStraysExactly(d0: Device, caps: Caps, hw: Hardware, os: seq<Scanout.Outcome>, count: nat, es: seq<Event>)
    requires Answers(hw, d0) && Sinks.Indexed(d0) && |os| == |d0.crtcs| && Unopened(d0, EMPTY)
    requires SystemModel.ValidRun(Boot(d0, EMPTY, caps, hw, os, count).device, es)
    ensures var calls := History(d0, caps, hw, os, count, es);
      SystemModel.Run(Boot(d0, EMPTY, caps, hw, os, count), caps, es).kernel.strays == 0 <==> Scanout.NoStaleCall(calls, |calls|)
  {
    ServiceFollows(d0, caps, hw, os, count, es);
    PassFresh(d0, hw, caps);
    var calls := History(d0, caps, hw, os, count, es);
    Scanout.StrayExactly(Pass(d0, hw, caps.max).crtcs, EMPTY, calls, |calls|);
  }

  lemma PassFresh(d0: Device, hw: Hardware, caps: Caps)
    requires Answers(hw, d0) && Unopened(d0, EMPTY)
    ensures Scanout.Fresh(Pass(d0, hw, caps.max).crtcs, EMPTY)
  {
    PassKeeps(d0, hw, caps);
  }

  // ----- every mode set has the size of its framebuffer -----

  /** With canonical mode names, every mode set so far has exactly the dimensions of its framebuffer. */
  ghost predicate Sized(k: Resources) {
    forall i :: 0 <= i < |k.sets| ==> k.sets[i].fbSize == Some(Size(k.sets[i].mode.hdisplay, k.sets[i].mode.vdisplay))
  }

  lemma SetModeSized(d: Device, k: Resources, j: nat, size: Size, hw: Hardware, o: Scanout.Outcome)
    requires j < |d.crtcs| && Known(d.connectors, hw) && SoundKernel(d.crtcs, k) && Canonical(hw) && Sized(k)
    ensures Sized(SetMode(d, k, j, size, hw, o).kernel)
  {
    SetModeCoherent(d, k, j, size, hw, o);
    var k' := SetMode(d, k, j, size, hw, o).kernel;
    assert forall i :: 0 <= i < |k.sets| ==> k'.sets[i] == k'.sets[..|k.sets|][i];
    if SetMode(d, k, j, size, hw, o).ok {
      SetHasSize(k'.sets[|k.sets|], d.crtcs[j], d.connectors, size, hw);
    }
  }

  ghost predicate CanonicalEvent(e: Event) {
    e.Resolution? ==> Canonical(e.hw)
  }

  lemma StepSized(s: System, caps: Caps, e: Event)
    requires ValidEvent(s.device, e) && Invariant(s, caps) && CanonicalEvent(e) && Sized(s.kernel)
    ensures Sized(Step(s, caps, e).kernel)
  {
    match e {
      case Resolution(win, path, hw, o) =>
        var j := ChangedCrtc(s.device, hw, path);
        if j < |s.device.crtcs| {
          var conns := PathCrtc(RefreshAll(s.device.connectors, hw), hw, path, 0).0;
          SetModeSized(s.device.(connectors := conns), s.kernel, j, win, hw, o);
        }
      case _ =>
    }
  }

  lemma {:induction false} RunSized(s: System, caps: Caps, es: seq<Event>)
    requires SystemModel.ValidRun(s.device, es) && Invariant(s, caps) && Sized(s.kernel)
    requires forall i :: 0 <= i < |es| ==> CanonicalEvent(es[i])
    ensures Sized(SystemModel.Run(s, caps, es).kernel)
    decreases |es|
  {
    if es != [] {
      var front := es[..|es| - 1];
      RunSized(s, caps, front);
      RunKeeps(s, caps, front);
      var mid := SystemModel.Run(s, caps, front);
      ValidSame(s.device, mid.device, es[|es| - 1]);
      StepSized(mid, caps, es[|es| - 1]);
    }
  }

  ghost predicate SizedState(s: (Device, Resources)) {
    SoundState(s) && Sized(s.1)
  }

  lemma BootModeSized(s: (Device, Resources), hw: Hardware, j: nat, o: Scanout.Outcome)
    requires j < |s.0.crtcs| && Known(s.0.connectors, hw) && Canonical(hw) && SizedState(s)
    ensures SizedState(BootMode(s, hw, j, o))
  {
    BootSoundStep(s, hw, j, o);
    SetModeSized(s.0, s.1, j, s.0.crtcs[j].max, hw, o);
  }

  lemma BootSized(d0: Device, caps: Caps, hw: Hardware, os: seq<Scanout.Outcome>, count: nat)
    requires Answers(hw, d0) && Sinks.Indexed(d0) && |os| == |d0.crtcs| && Unopened(d0, EMPTY) && Canonical(hw)
    ensures Sized(Boot(d0, EMPTY, caps, hw, os, count).kernel)
  {
    var d := Pass(d0, hw, caps.max);
    UnopenedSound(d0.crtcs);
    PassKeeps(d0, hw, caps);
    SoundSame(d0.crtcs, d.crtcs, EMPTY);
    forall s: (Device, Resources), j: nat, o | j < |s.0.crtcs| && Known(s.0.connectors, hw) && o in os && SizedState(s)
      ensures SizedState(BootMode(s, hw, j, o))
    {
      BootModeSized(s, hw, j, o);
    }
    BootInduction((s: (Device, Resources)) => SizedState(s), d, EMPTY, hw, os, |d0.crtcs|);
  }

  /** From construction on, over any run of events on hardware with canonical mode names, failures included: the mode that
      is set always has exactly the dimensions of the framebuffer it is set with. */
  lemma ServiceSized(d0: Device, caps: Caps, hw: Hardware, os: seq<Scanout.Outcome>, count: nat, es: seq<Event>)
    requires Answers(hw, d0) && Sinks.Indexed(d0) && |os| == |d0.crtcs| && Unopened(d0, EMPTY) && Canonical(hw)
    requires SystemModel.ValidRun(Boot(d0, EMPTY, caps, hw, os, count).device, es)
    requires forall i :: 0 <= i < |es| ==> CanonicalEvent(es[i])
    ensures Sized(SystemModel.Run(Boot(d0, EMPTY, caps, hw, os, count), caps, es).kernel)
  {
    BootEstablishes(d0, caps, hw, os, count);
    BootSized(d0, caps, hw, os, count);
    RunSized(Boot(d0, EMPTY, caps, hw, os, count), caps, es);
  }
}
