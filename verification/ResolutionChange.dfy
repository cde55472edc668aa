/** What a resolution change does to the logical planes: nothing, which leaves them behind their CRTC. */
module ResolutionChanges {
  import opened Formats
  import opened Drm
  import opened CrtcChoice
  import opened DeviceModel
  import opened Scanout
  import opened ModeNames
  import opened ModeSetting
  import opened Searches
  import opened Sinks
  import opened SystemModel

  /** The CRTC that a resolution change is for; the number of CRTCs when the path has none. */
  function ChangedCrtc(d: Device, hw: Hardware, path: nat): (j: nat)
    requires Known(d.connectors, hw)
    ensures j <= |d.crtcs|
  {
    CrtcIndex(d.crtcs, PathCrtc(RefreshAll(d.connectors, hw), hw, path, 0).1, 0)
  }

  /** The event asks the kernel for a scanout buffer: the size is in the limits, the display path is below the number of
      plugged connectors and leads to a CRTC, and every plugged connector of that CRTC has the mode. */
  ghost predicate Attempts(s: System, caps: Caps, win: Size, path: nat, hw: Hardware)
    requires Answers(hw, s.device)
  {
    && ValidMode(caps, win)
    && PluggedCount(s.device.connectors, hw, |s.device.connectors|) > path
    && var j := ChangedCrtc(s.device, hw, path);
       j < |s.device.crtcs| && Settable(s.device.crtcs[j], s.device.connectors, win, hw)
  }

  /** The event carries out a mode change: it asks, and both requests are granted. */
  ghost predicate Changes(s: System, caps: Caps, win: Size, path: nat, hw: Hardware, o: Outcome)
    requires Answers(hw, s.device)
  {
    Attempts(s, caps, win, path, hw) && Good(o)
  }

  /** Fetching connectors again does not change what can be set. */
  lemma SettableSame(c: Crtc, conns: seq<Connector>, conns': seq<Connector>, size: Size, hw: Hardware)
    requires Known(conns, hw) && |conns'| == |conns| && forall i :: 0 <= i < |conns| ==> conns'[i].id == conns[i].id
    ensures Known(conns', hw) && (Settable(c, conns', size, hw) <==> Settable(c, conns, size, hw))
  {
    forall id
      ensures ConnIndex(conns', id, 0) == ConnIndex(conns, id, 0)
    {
      FirstSame(conns', conns, ConnectorWithId(id), 0);
    }
    assert forall id :: PluggedMember(conns', hw, id) == PluggedMember(conns, hw, id);
    assert forall id :: Supports(conns', hw, id, size) == Supports(conns, hw, id, size);
  }

  lemma ModeChangeDone(d: Device, k: Resources, j: nat, win: Size, hw: Hardware, o: Outcome)
    requires j < |d.crtcs| && Known(d.connectors, hw)
    ensures SetMode(d, k, j, win, hw, o).ok <==> Settable(d.crtcs[j], d.connectors, win, hw) && Good(o)
  {
    CheckDecides(d.crtcs[j], d.connectors, win, hw);
  }

  /** That is exactly when changeMode reports success. */
  lemma ChangesExactly(s: System, caps: Caps, win: Size, path: nat, hw: Hardware, o: Outcome)
    requires Answers(hw, s.device) && ValidMode(caps, win)
    requires PluggedCount(s.device.connectors, hw, |s.device.connectors|) > path
    ensures var d := s.device.(connectors := RefreshAll(s.device.connectors, hw));
      ChangeMode(d, s.kernel, s.configured, win, path, hw, o).done <==> Changes(s, caps, win, path, hw, o)
  {
    var conns := RefreshAll(s.device.connectors, hw);
    var j := ChangedCrtc(s.device, hw, path);
    if j < |s.device.crtcs| {
      var conns' := PathCrtc(conns, hw, path, 0).0;
      SettableSame(s.device.crtcs[j], s.device.connectors, conns', win, hw);
      ModeChangeDone(s.device.(connectors := conns'), s.kernel, j, win, hw, o);
    }
  }

  /** What setDisplayResolution returns; it takes the true of a successful changeMode for a failure. */
  function Reported(s: System, caps: Caps, win: Size, path: nat, hw: Hardware, o: Outcome): bool
    requires Answers(hw, s.device)
  {
    && ValidMode(caps, win)
    && PluggedCount(s.device.connectors, hw, |s.device.connectors|) > path
    && !ChangeMode(s.device.(connectors := RefreshAll(s.device.connectors, hw)), s.kernel, s.configured, win, path, hw, o).done
  }

  /** The result says the opposite of what happened: a change that is carried out is reported as a failure, and a success is
      reported exactly when size and path were accepted and no limit and no configured size changed. */
  lemma ReportInverted(s: System, caps: Caps, win: Size, path: nat, hw: Hardware, o: Outcome)
    requires Answers(hw, s.device)
    ensures Changes(s, caps, win, path, hw, o) ==> !Reported(s, caps, win, path, hw, o)
    ensures Reported(s, caps, win, path, hw, o) <==>
      && ValidMode(caps, win)
      && PluggedCount(s.device.connectors, hw, |s.device.connectors|) > path
      && !Changes(s, caps, win, path, hw, o)
    ensures var s' := Step(s, caps, Resolution(win, path, hw, o));
      && |s'.device.crtcs| == |s.device.crtcs|
      && s'.configured == (if Changes(s, caps, win, path, hw, o) then win else s.configured)
      && (Reported(s, caps, win, path, hw, o) ==> forall j :: 0 <= j < |s.device.crtcs| ==> s'.device.crtcs[j].max == s.device.crtcs[j].max)
  {
    if ValidMode(caps, win) && PluggedCount(s.device.connectors, hw, |s.device.connectors|) > path {
      ChangesExactly(s, caps, win, path, hw, o);
    }
    StepShape(s, caps, Resolution(win, path, hw, o));
    forall j | 0 <= j < |s.device.crtcs| && Reported(s, caps, win, path, hw, o)
      ensures Step(s, caps, Resolution(win, path, hw, o)).device.crtcs[j].max == s.device.crtcs[j].max
    {
      ChangedLimit(s, caps, win, path, hw, o, j);
    }
  }

  /** A resolution event with a size inside the limits fetches every connector again and changes nothing else about them. */
  lemma ResolutionFetches(s: System, caps: Caps, win: Size, path: nat, hw: Hardware, o: Outcome)
    requires Answers(hw, s.device) && ValidMode(caps, win)
    ensures Step(s, caps, Resolution(win, path, hw, o)).device.connectors == RefreshAll(s.device.connectors, hw)
  {
    var conns := RefreshAll(s.device.connectors, hw);
    PathUpToDate(conns, hw, path, 0);
    var j := ChangedCrtc(s.device, hw, path);
    if j < |s.device.crtcs| {
      var ids := s.device.crtcs[j].connectors;
      CheckUpToDate(conns, ids, |ids|, win, hw);
    }
  }

  /** The only limit that the event changes. */
  lemma ChangedLimit(s: System, caps: Caps, win: Size, path: nat, hw: Hardware, o: Outcome, j: nat)
    requires Answers(hw, s.device) && j < |s.device.crtcs|
    ensures var d', done := Step(s, caps, Resolution(win, path, hw, o)).device, Changes(s, caps, win, path, hw, o);
      && |d'.crtcs| == |s.device.crtcs|
      && d'.crtcs[j].max == (if done && j == ChangedCrtc(s.device, hw, path) then win else s.device.crtcs[j].max)
      && (done ==> ChangedCrtc(s.device, hw, path) < |s.device.crtcs|)
  {
    if ValidMode(caps, win) && PluggedCount(s.device.connectors, hw, |s.device.connectors|) > path {
      ChangesExactly(s, caps, win, path, hw, o);
      var conns := RefreshAll(s.device.connectors, hw);
      var k := ChangedCrtc(s.device, hw, path);
      if k < |s.device.crtcs| {
        SetModeShape(s.device.(connectors := PathCrtc(conns, hw, path, 0).0), s.kernel, k, win, hw, o);
      }
    }
  }

  /** Logical plane `i` belongs to CRTC `j`. */
  predicate OnCrtc(s: System, i: nat, j: nat) {
    i < |s.planes| && s.planes[i].wid in s.sinks && j < |s.device.crtcs| &&
    CrtcIndex(s.device.crtcs, s.sinks[s.planes[i].wid].crtcId, 0) == j
  }

  lemma PlaneAfterResolution(s: System, caps: Caps, win: Size, path: nat, hw: Hardware, o: Outcome, i: nat)
    requires Answers(hw, s.device) && i < |s.planes| && PlaneCurrent(s, i)
    ensures var s', j := Step(s, caps, Resolution(win, path, hw, o)), ChangedCrtc(s.device, hw, path);
      s'.planes == s.planes &&
      (PlaneCurrent(s', i) <==> !(Changes(s, caps, win, path, hw, o) && OnCrtc(s, i, j) && s.device.crtcs[j].max != win))
  {
    var e := Resolution(win, path, hw, o);
    var s' := Step(s, caps, e);
    StepShape(s, caps, e);
    if s.planes[i].wid in s.sinks {
      var id := s.sinks[s.planes[i].wid].crtcId;
      FirstSame(s.device.crtcs, s'.device.crtcs, CrtcWithId(id), 0);
      var k := CrtcIndex(s.device.crtcs, id, 0);
      if k < |s.device.crtcs| {
        ChangedLimit(s, caps, win, path, hw, o, k);
      }
    }
  }

  /** After a resolution change the logical planes are current exactly when the CRTC had that limit already or feeds none
      of them; an event that changes no mode keeps them current. */
  lemma KeepsCurrentExactly(s: System, caps: Caps, win: Size, path: nat, hw: Hardware, o: Outcome)
    requires Answers(hw, s.device) && PlanesCurrent(s)
    ensures var s' := Step(s, caps, Resolution(win, path, hw, o));
      var j := ChangedCrtc(s.device, hw, path);
      PlanesCurrent(s') <==>
        !Changes(s, caps, win, path, hw, o) || (forall i :: 0 <= i < |s.planes| && OnCrtc(s, i, j) ==> s.device.crtcs[j].max == win)
  {
    forall i | 0 <= i < |s.planes|
      ensures var s', j := Step(s, caps, Resolution(win, path, hw, o)), ChangedCrtc(s.device, hw, path);
        s'.planes == s.planes &&
        (PlaneCurrent(s', i) <==> !(Changes(s, caps, win, path, hw, o) && OnCrtc(s, i, j) && s.device.crtcs[j].max != win))
    {
      PlaneAfterResolution(s, caps, win, path, hw, o, i);
    }
    StepPlanes(s, caps, win, path, hw, o);
  }

  lemma StepPlanes(s: System, caps: Caps, win: Size, path: nat, hw: Hardware, o: Outcome)
    requires Answers(hw, s.device)
    ensures Step(s, caps, Resolution(win, path, hw, o)).planes == s.planes
  {
  }

  // A card with one CRTC, one plane for it, and one connector that offers 1920x1080 and 640x480.

  const FULL := Size(1920, 1080)
  const SMALL := Size(640, 480)
  const LIMITS := Caps(Size(0, 0), FULL)
  const SERVED := Outcome(true, true)

  function ExampleInfo(): ConnectorInfo {
    ConnectorInfo(true, 7, [7], [Mode(ModeName(1920, 1080), 1920, 1080, 60), Mode(ModeName(640, 480), 640, 480, 60)])
  }

  function ExampleHardware(): Hardware {
    Hardware(map[1 := ExampleInfo()], map[7 := EncoderInfo(5, 1)], [5])
  }

  function ExampleCard(): Device {
    Device([Connector(1, 0, ExampleInfo())], [Crtc(5, 0, [], 0, None, Size(0, 0), Size(0, 0))], [Plane(31, 1)])
  }

  /** The service as construction leaves it on that card. */
  function ExampleService(): System
    requires Answers(ExampleHardware(), ExampleCard())
  {
    Boot(ExampleCard(), EMPTY, LIMITS, ExampleHardware(), [SERVED], 1)
  }

  lemma ExampleAnswers()
    ensures Answers(ExampleHardware(), ExampleCard()) && Unopened(ExampleCard(), EMPTY) && Indexed(ExampleCard())
    ensures CrtcFor(ExampleInfo(), ExampleHardware()) == 5
  {
  }

  lemma ExamplePass()
    ensures Answers(ExampleHardware(), ExampleCard())
    ensures Pass(ExampleCard(), ExampleHardware(), FULL) ==
      Device([Connector(1, 5, ExampleInfo())], [Crtc(5, 0, [1], 0, None, FULL, SMALL)], [Plane(31, 1)])
  {
    ExampleAnswers();
    var d, hw := ExampleCard(), ExampleHardware();
    assert Setup(d, hw, FULL, 1) == SetupOne(d, hw, FULL, 0);
    assert Wanted(d, hw, 0) == 5 && CrtcIndex(d.crtcs, 5, 0) == 0;
  }

  lemma ExampleSink(d: Device)
    requires d == Device([Connector(1, 5, ExampleInfo())], [Crtc(5, 0, [1], 0, None, FULL, SMALL)], [Plane(31, 1)])
    ensures Indexed(d) && SinkFor(d, 0) == Sink(31, 5, 1, false)
  {
    assert HasBit(1, 0);
    assert PlanesFor(d.planes, 0, 1) == [31];
    assert PlanesList(d, 1) == [31];
    assert LowestBit(1) == 0;
  }

  /** After construction: the CRTC drives the connector at 1920x1080, and the logical plane has it as its CRTC. */
  lemma ExampleBooted()
    ensures Answers(ExampleHardware(), ExampleCard())
    ensures var s := ExampleService();
      && Answers(ExampleHardware(), s.device) && PlanesCurrent(s) && OnCrtc(s, 0, 0)
      && |s.device.crtcs| == 1 && s.device.crtcs[0].max == FULL && s.device.crtcs[0].connectors == [1] && s.device.crtcs[0].id == 5
      && |s.device.connectors| == 1 && s.device.connectors[0].id == 1 && s.device.connectors[0].crtcId == 5
  {
    var d0, hw := ExampleCard(), ExampleHardware();
    ExampleAnswers();
    ExamplePass();
    var d := Pass(d0, hw, FULL);
    BootEstablishes(d0, LIMITS, hw, [SERVED], 1);
    BootSinks(d0, LIMITS, hw, [SERVED], 1, 0);
    BootShape(d, EMPTY, hw, [SERVED], 1);
    ExampleSink(d);
  }

  lemma ExamplePath(conns: seq<Connector>, hw: Hardware)
    requires |conns| == 1 && conns[0].id == 1 && conns[0].crtcId == 5 && hw == ExampleHardware()
    ensures Known(conns, hw) && PathCrtc(RefreshAll(conns, hw), hw, 0, 0).1 == 5
    ensures PluggedCount(conns, hw, 1) == 1
  {
  }

  lemma ExampleSettable(c: Crtc, conns: seq<Connector>)
    requires |conns| == 1 && conns[0].id == 1 && c.connectors == [1]
    ensures Known(conns, ExampleHardware()) && Settable(c, conns, SMALL, ExampleHardware())
  {
    var modes := ExampleInfo().modes;
    assert Matches(modes[1], ModeName(640, 480), 0);
    assert PluggedMember(conns, ExampleHardware(), 1);
  }

  /** On a service that was just constructed, the logical plane still reports 1920x1080 after a change to 640x480. */
  lemma StaleAfterResolution()
    ensures Answers(ExampleHardware(), ExampleCard())
    ensures var s, e := ExampleService(), Resolution(SMALL, 0, ExampleHardware(), SERVED);
      && ValidEvent(s.device, e) && PlanesCurrent(s)
      && Step(s, LIMITS, e).device.crtcs[0].max == SMALL && !PlanesCurrent(Step(s, LIMITS, e))
  {
    ExampleBooted();
    var s := ExampleService();
    ExamplePath(s.device.connectors, ExampleHardware());
    ExampleSettable(s.device.crtcs[0], s.device.connectors);
    assert ChangedCrtc(s.device, ExampleHardware(), 0) == 0;
    ChangedLimit(s, LIMITS, SMALL, 0, ExampleHardware(), SERVED, 0);
    PlaneAfterResolution(s, LIMITS, SMALL, 0, ExampleHardware(), SERVED, 0);
  }
}
