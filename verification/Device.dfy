/** DriDevice: the lists of one card, updated in place. */
module DriDevices {
  import opened Formats
  import opened Drm
  import opened CrtcChoice
  import opened DeviceModel
  import opened Scanout
  import opened ModeNames
  import opened ModeSetting
  import opened Sinks
  import opened DrmObjects

  class DriDevice {
    const card: Card
    const connectorList: seq<DrmConnector>
    const crtcList: seq<DrmCrtc>
    const planeList: seq<Plane>

    constructor (card: Card, connectors: seq<DrmConnector>, crtcs: seq<DrmCrtc>, planes: seq<Plane>)
      requires forall i, j :: 0 <= i < j < |connectors| ==> connectors[i] != connectors[j]
      requires forall i, j :: 0 <= i < j < |crtcs| ==> crtcs[i] != crtcs[j]
      ensures Valid() && this.card == card
      ensures connectorList == connectors && crtcList == crtcs && planeList == planes
    {
      this.card := card;
      connectorList := connectors;
      crtcList := crtcs;
      planeList := planes;
    }

    /** The lists hold different objects. */
    ghost predicate Valid() {
      && (forall i, j :: 0 <= i < j < |connectorList| ==> connectorList[i] != connectorList[j])
      && (forall i, j :: 0 <= i < j < |crtcList| ==> crtcList[i] != crtcList[j])
    }

    ghost function Connectors(): (s: seq<Connector>)
      reads connectorList
      ensures |s| == |connectorList| && forall i :: 0 <= i < |s| ==> s[i] == connectorList[i].Value()
    {
      seq(|connectorList|, i requires 0 <= i < |connectorList| reads connectorList => connectorList[i].Value())
    }

    ghost function Crtcs(): (s: seq<Crtc>)
      reads crtcList
      ensures |s| == |crtcList| && forall i :: 0 <= i < |s| ==> s[i] == crtcList[i].Value()
    {
      seq(|crtcList|, i requires 0 <= i < |crtcList| reads crtcList => crtcList[i].Value())
    }

    /** The device as a value. */
    ghost function View(): Device
      reads connectorList, crtcList
    {
      Device(Connectors(), Crtcs(), planeList)
    }

    /** `std::find_if` over the CRTC ids. */
    method FindCrtcById(id: nat) returns (k: nat)
      ensures k == CrtcIndex(Crtcs(), id, 0) && k <= |crtcList|
    {
      k := 0;
      while k < |crtcList| && crtcList[k].id != id
        invariant k <= |crtcList|
        invariant forall m :: 0 <= m < k ==> Crtcs()[m].id != id
      {
        k := k + 1;
      }
    }

    /** isPlugged of connector `i` */
    method Replug(i: nat, hw: Hardware) returns (plugged: bool)
      requires Valid() && Known(Connectors(), hw) && i < |connectorList|
      modifies connectorList[i]
      ensures Connectors() == Refresh(old(Connectors()), hw, i) && Crtcs() == old(Crtcs())
      ensures plugged == Plugged(connectorList[i].info) && connectorList[i].info == hw.connectors[connectorList[i].id]
    {
      ghost var conns, crtcs := Connectors(), Crtcs();
      assert conns[i].id == connectorList[i].id;
      plugged := connectorList[i].IsPlugged(hw);
      assert Connectors() == Refresh(conns, hw, i);
      assert Crtcs() == crtcs;
    }

    method AssignCrtc(i: nat, crtcId: nat)
      requires Valid() && i < |connectorList|
      modifies connectorList[i]
      ensures Connectors() == old(Connectors())[i := old(Connectors()[i]).(crtcId := crtcId)] && Crtcs() == old(Crtcs())
    {
      ghost var conns, crtcs := Connectors(), Crtcs();
      connectorList[i].SetCrtcId(crtcId);
      assert Connectors() == conns[i := conns[i].(crtcId := crtcId)];
      assert Crtcs() == crtcs;
    }

    method BindCrtc(k: nat, connId: nat, info: ConnectorInfo, conf: Size)
      requires Valid() && k < |crtcList| && Plugged(info)
      modifies crtcList[k]
      ensures Crtcs() == old(Crtcs())[k := Bind(old(Crtcs()[k]), connId, info, conf)] && Connectors() == old(Connectors())
    {
      ghost var conns, crtcs := Connectors(), Crtcs();
      crtcList[k].BindConnector(connId, info, conf);
      assert Connectors() == conns;
      assert Crtcs() == crtcs[k := Bind(crtcs[k], connId, info, conf)];
    }

    method LimitCrtc(j: nat, max: Size)
      requires Valid() && j < |crtcList|
      modifies crtcList[j]
      ensures Crtcs() == old(Crtcs())[j := old(Crtcs()[j]).(max := max)] && Connectors() == old(Connectors())
    {
      ghost var conns, crtcs := Connectors(), Crtcs();
      crtcList[j].max := max;
      assert Connectors() == conns;
      assert Crtcs() == crtcs[j := crtcs[j].(max := max)];
    }

    /** The pass over connector `i`. */
    method SetupConnector(i: nat, conf: Size, hw: Hardware)
      requires Valid() && Answers(hw, View()) && i < |connectorList|
      modifies connectorList[i], crtcList
      ensures View() == SetupOne(old(View()), hw, conf, i)
    {
      ghost var before := View();
      var connId := connectorList[i].id;
      assert before.connectors[i].id == connId;
      var plugged := Replug(i, hw);
      if !plugged {
        return;
      }
      var info := connectorList[i].info;
      var crtcId := FindCrtc(info, hw);
      if crtcId == 0 {
        return;
      }
      AssignCrtc(i, crtcId);
      assert Connectors() == before.connectors[i := before.connectors[i].(info := info, crtcId := crtcId)];
      var k := FindCrtcById(crtcId);
      if k < |crtcList| {
        BindCrtc(k, connId, info, conf);
      }
    }

    method SetupNext(i: nat, conf: Size, hw: Hardware, ghost d: Device, ghost d': Device)
      requires Valid() && View() == d && i < |connectorList| && PassesTo(d, d', hw, conf, i)
      modifies connectorList, crtcList
      ensures View() == d'
    {
      SetupConnector(i, conf, hw);
    }

    /** The loop of setupDevice; `trail` are the states it goes through. */
    method SetupLoop(conf: Size, hw: Hardware, ghost trail: seq<Device>)
      requires Valid() && |trail| == |connectorList| + 1 && View() == trail[0]
      requires forall i: nat :: i < |connectorList| ==> PassesTo(trail[i], trail[i + 1], hw, conf, i)
      modifies connectorList, crtcList
      ensures View() == trail[|connectorList|]
    {
      for i := 0 to |connectorList|
        invariant View() == trail[i]
      {
        SetupNext(i, conf, hw, trail[i], trail[i + 1]);
      }
    }

    /** setupDevice */
    method SetupDevice(conf: Size, hw: Hardware)
      requires Valid() && Answers(hw, View())
      modifies connectorList, crtcList
      ensures View() == Pass(old(View()), hw, conf)
    {
      ghost var start := View();
      TrailPasses(start, hw, conf);
      SetupLoop(conf, hw, Trail(start, hw, conf));
    }

    /** `std::find_if` over the plane ids. */
    method FindPlaneById(planeId: nat) returns (p: nat)
      ensures p == PlaneIndex(planeList, planeId, 0)
    {
      p := 0;
      while p < |planeList| && planeList[p].id != planeId
        invariant p <= |planeList|
        invariant forall m :: 0 <= m < p ==> planeList[m].id != planeId
      {
        p := p + 1;
      }
    }

    /** `std::find_if` over the CRTC indices. */
    method FindCrtcByIndex(index: nat) returns (k: nat)
      ensures k == CrtcAt(Crtcs(), index, 0) && k <= |crtcList|
    {
      k := 0;
      while k < |crtcList| && crtcList[k].index != index
        invariant k <= |crtcList|
        invariant forall m :: 0 <= m < k ==> Crtcs()[m].index != index
      {
        k := k + 1;
      }
    }

    /** findCrtc of a plane id */
    method FindCrtcOfPlane(planeId: nat) returns (id: nat)
      ensures id == PlaneCrtc(View(), planeId)
    {
      var p := FindPlaneById(planeId);
      var index := if p < |planeList| then LowestBit(planeList[p].possibleCrtcs) else 0;
      var k := FindCrtcByIndex(index);
      id := if k < |crtcList| then crtcList[k].id else 0;
    }

    /** findConnector of a plane id */
    method FindConnector(planeId: nat) returns (id: nat)
      ensures id == PlaneConnector(View(), planeId)
    {
      id := 0;
      var crtcId := FindCrtcOfPlane(planeId);
      if crtcId != 0 {
        var k := 0;
        while k < |connectorList| && connectorList[k].crtcId != crtcId
          invariant k <= |connectorList|
          invariant forall m :: 0 <= m < k ==> Connectors()[m].crtcId != crtcId
        {
          k := k + 1;
        }
        if k < |connectorList| {
          id := connectorList[k].id;
        }
      }
    }

    /** The check of one connector id of a CRTC, given the mode found so far. */
    method CheckConnector(connId: nat, size: Size, hw: Hardware, mode: Option<Mode>) returns (refused: bool, found: Option<Mode>)
      requires Valid() && Known(Connectors(), hw)
      modifies connectorList
      ensures Crtcs() == old(Crtcs())
      ensures Checked(old(Connectors()), Connectors(), connId, size, hw, mode, refused, found)
    {
      ghost var before := Connectors();
      refused, found := false, mode;
      var k := 0;
      while k < |connectorList| && connectorList[k].id != connId
        invariant k <= |connectorList|
        invariant forall m :: 0 <= m < k ==> before[m].id != connId
      {
        k := k + 1;
      }
      if k == |connectorList| {
        return;
      }
      var plugged := Replug(k, hw);
      if !plugged {
        return;
      }
      var name := ModeName(size.w, size.h);
      var supported := connectorList[k].IsModeSupported(name, 0);
      if !supported {
        refused := true;
        return;
      }
      if mode.None? {
        found := connectorList[k].GetMode(name, 0);
      }
    }

    /** The loop over the connectors of a CRTC. */
    method CheckConnectors(ids: seq<nat>, size: Size, hw: Hardware) returns (choice: Choice)
      requires Valid() && Known(Connectors(), hw)
      modifies connectorList
      ensures Crtcs() == old(Crtcs())
      ensures (Connectors(), choice) == Check(old(Connectors()), ids, |ids|, size, hw)
    {
      ghost var before := Connectors();
      var mode: Option<Mode> := None;
      for i := 0 to |ids|
        invariant Crtcs() == old(Crtcs()) && Known(Connectors(), hw)
        invariant (Connectors(), Chosen(mode)) == Check(before, ids, i, size, hw)
      {
        ghost var conns := Connectors();
        var refused, found := CheckConnector(ids[i], size, hw, mode);
        CheckNext(before, ids, i, size, hw, conns, mode, Connectors(), refused, found);
        if refused {
          CheckStays(before, ids, i + 1, |ids|, size, hw, Connectors());
          return Refused;
        }
        mode := found;
      }
      return Chosen(mode);
    }

    /** createScanoutFb on CRTC `j` */
    method Rescan(j: nat, size: Size, o: Outcome) returns (failed: bool)
      requires Valid() && j < |crtcList|
      modifies crtcList[j], card
      ensures Crtcs() == old(Crtcs())[j := CrtcWithScanout(old(Crtcs()[j]), old(card.res), o)] && Connectors() == old(Connectors())
      ensures card.res == KernelAfter(old(Crtcs()[j]), old(card.res), size, o) && failed == !Good(o)
    {
      ghost var conns, crtcs := Connectors(), Crtcs();
      failed := crtcList[j].CreateScanoutFb(card, size, o);
      assert Connectors() == conns;
      assert Crtcs() == crtcs[j := CrtcWithScanout(crtcs[j], old(card.res), o)];
    }

    /** setActiveMode on CRTC `j`; true for its result -1. */
    method SetActiveMode(j: nat, size: Size, hw: Hardware, o: Outcome) returns (failed: bool)
      requires Valid() && Known(Connectors(), hw) && j < |crtcList|
      modifies connectorList, crtcList[j], card
      ensures var r := SetMode(old(View()), old(card.res), j, size, hw, o);
        View() == r.device && card.res == r.kernel && failed == !r.ok
    {
      var crtc := crtcList[j];
      assert Crtcs()[j] == crtc.Value();
      if |crtc.connectors| == 0 {
        return true;
      }
      var choice := CheckConnectors(crtc.connectors, size, hw);
      if choice.Refused? || choice.mode.None? {
        return true;
      }
      failed := Rescan(j, size, o);
      if failed {
        return;
      }
      assert Crtcs()[j] == crtc.Value();
      card.SetCrtc(crtc.id, crtc.fb, crtc.connectors, choice.mode.value);
    }
  }

  /** The pass over connector `i` turns `d` into `d'`. */
  ghost predicate PassesTo(d: Device, d': Device, hw: Hardware, conf: Size, i: nat) {
    Answers(hw, d) && i < |d.connectors| && d' == SetupOne(d, hw, conf, i)
  }

  /** The states of a pass, connector by connector. */
  ghost function Trail(start: Device, hw: Hardware, conf: Size): (trail: seq<Device>)
    requires Answers(hw, start)
    ensures |trail| == |start.connectors| + 1
    ensures forall i :: 0 <= i <= |start.connectors| ==> trail[i] == Setup(start, hw, conf, i)
  {
    seq(|start.connectors| + 1, i requires 0 <= i <= |start.connectors| => Setup(start, hw, conf, i))
  }

  lemma TrailPasses(start: Device, hw: Hardware, conf: Size)
    requires Answers(hw, start)
    ensures var trail := Trail(start, hw, conf);
      && trail[0] == start && trail[|start.connectors|] == Pass(start, hw, conf)
      && forall i: nat :: i < |start.connectors| ==> PassesTo(trail[i], trail[i + 1], hw, conf, i)
  {
    var trail := Trail(start, hw, conf);
    forall i: nat | i < |start.connectors|
      ensures PassesTo(trail[i], trail[i + 1], hw, conf, i)
    {
      SetupStep(start, hw, conf, i);
    }
  }

  lemma SetupStep(start: Device, hw: Hardware, conf: Size, i: nat)
    requires Answers(hw, start) && i < |start.connectors|
    ensures PassesTo(Setup(start, hw, conf, i), Setup(start, hw, conf, i + 1), hw, conf, i)
  {
  }

  /** What the check of one connector id does, given the mode found so far. */
  ghost predicate Checked(cs: seq<Connector>, cs': seq<Connector>, connId: nat, size: Size, hw: Hardware, mode: Option<Mode>,
                          refused: bool, found: Option<Mode>)
    requires Known(cs, hw)
  {
    var k := ConnIndex(cs, connId, 0);
    if k == |cs| then cs' == cs && !refused && found == mode
    else
      && cs' == Refresh(cs, hw, k)
      && var info := hw.connectors[cs[k].id];
         if !Plugged(info) then !refused && found == mode
         else refused == Lookup(info, size).None? && (!refused ==> found == if mode.None? then Lookup(info, size) else mode)
  }

  lemma CheckNext(before: seq<Connector>, ids: seq<nat>, i: nat, size: Size, hw: Hardware, cs: seq<Connector>, mode: Option<Mode>,
                  cs': seq<Connector>, refused: bool, found: Option<Mode>)
    requires i < |ids| && Known(before, hw) && Known(cs, hw) && (cs, Chosen(mode)) == Check(before, ids, i, size, hw)
    requires Checked(cs, cs', ids[i], size, hw, mode, refused, found)
    ensures Known(cs', hw) && Check(before, ids, i + 1, size, hw) == (cs', if refused then Refused else Chosen(found))
  {
  }

  lemma RefusedNext(conns: seq<Connector>, ids: seq<nat>, n: nat, size: Size, hw: Hardware)
    requires n < |ids| && Known(conns, hw) && Check(conns, ids, n, size, hw).1.Refused?
    ensures Check(conns, ids, n + 1, size, hw) == Check(conns, ids, n, size, hw)
  {
  }

  /** A refused check stays refused, and looks at no further connector. */
  lemma {:induction false} CheckStays(conns: seq<Connector>, ids: seq<nat>, i: nat, n: nat, size: Size, hw: Hardware, cs: seq<Connector>)
    requires i <= n <= |ids| && Known(conns, hw) && Check(conns, ids, i, size, hw) == (cs, Refused)
    ensures Check(conns, ids, n, size, hw) == (cs, Refused)
    decreases n - i
  {
    if i < n {
      RefusedNext(conns, ids, i, size, hw);
      CheckStays(conns, ids, i + 1, n, size, hw, cs);
    }
  }
}
