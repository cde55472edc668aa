/** Physical planes, and the CRTC and connector each of them resolves to. */
module Sinks {
  import opened Drm
  import opened Searches
  import opened CrtcChoice
  import opened DeviceModel

  /** The planes, from the first `n`, that can feed the CRTC with this index. */
  function PlanesFor(planes: seq<Plane>, index: nat, n: nat): seq<nat>
    requires n <= |planes| && index < 32
  {
    if n == 0 then []
    else PlanesFor(planes, index, n - 1) + if HasBit(planes[n - 1].possibleCrtcs, index) then [planes[n - 1].id] else []
  }

  predicate Indexed(d: Device) {
    |d.crtcs| <= 32 && forall j :: 0 <= j < |d.crtcs| ==> d.crtcs[j].index == j
  }

  /** getPlanes over the first `n` CRTCs: the planes of each one that has connectors. */
  function PlanesList(d: Device, n: nat): seq<nat>
    requires Indexed(d) && n <= |d.crtcs|
  {
    if n == 0 then []
    else PlanesList(d, n - 1) + if d.crtcs[n - 1].connectors != [] then PlanesFor(d.planes, n - 1, |d.planes|) else []
  }

  predicate DistinctPlanes(planes: seq<Plane>) {
    forall i, j :: 0 <= i < j < |planes| ==> planes[i].id != planes[j].id
  }

  /** How many of the first `n` CRTCs have connectors and are in the mask. */
  function ConnectedIn(d: Device, mask: bv32, n: nat): nat
    requires Indexed(d) && n <= |d.crtcs|
  {
    if n == 0 then 0
    else ConnectedIn(d, mask, n - 1) + if d.crtcs[n - 1].connectors != [] && HasBit(mask, n - 1) then 1 else 0
  }

  lemma CountAppend(s: seq<nat>, x: nat, y: nat)
    ensures multiset(s + [x])[y] == multiset(s)[y] + (if x == y then 1 else 0)
  {
    assert multiset(s + [x]) == multiset(s) + multiset{x};
  }

  lemma {:induction false} PlanesForCount(planes: seq<Plane>, index: nat, n: nat, i: nat)
    requires n <= |planes| && index < 32 && i < |planes| && DistinctPlanes(planes)
    ensures multiset(PlanesFor(planes, index, n))[planes[i].id] ==
      if i < n && HasBit(planes[i].possibleCrtcs, index) then 1 else 0
  {
    if n > 0 {
      PlanesForCount(planes, index, n - 1, i);
      var before := PlanesFor(planes, index, n - 1);
      assert planes[n - 1].id == planes[i].id <==> n - 1 == i;
      if HasBit(planes[n - 1].possibleCrtcs, index) {
        assert PlanesFor(planes, index, n) == before + [planes[n - 1].id];
        CountAppend(before, planes[n - 1].id, planes[i].id);
      } else {
        assert PlanesFor(planes, index, n) == before;
      }
    }
  }

  /** getPlanes lists a plane once for every connected CRTC in its mask, and nothing else. */
  lemma {:induction false} PlanesListCount(d: Device, n: nat, i: nat)
    requires Indexed(d) && n <= |d.crtcs| && i < |d.planes| && DistinctPlanes(d.planes)
    ensures multiset(PlanesList(d, n))[d.planes[i].id] == ConnectedIn(d, d.planes[i].possibleCrtcs, n)
  {
    if n > 0 {
      PlanesListCount(d, n - 1, i);
      PlanesForCount(d.planes, n - 1, |d.planes|, i);
    }
  }

  /** An entry of the list is a plane that a connected CRTC can use. */
  ghost predicate FromCrtc(d: Device, id: nat, j: nat, i: nat)
    requires Indexed(d)
  {
    j < |d.crtcs| && i < |d.planes| && d.crtcs[j].connectors != [] && d.planes[i].id == id && HasBit(d.planes[i].possibleCrtcs, j)
  }

  lemma {:induction false} PlanesForOrigin(planes: seq<Plane>, index: nat, n: nat, id: nat)
    requires n <= |planes| && index < 32 && id in PlanesFor(planes, index, n)
    ensures exists i :: 0 <= i < n && planes[i].id == id && HasBit(planes[i].possibleCrtcs, index)
  {
    if id in PlanesFor(planes, index, n - 1) {
      PlanesForOrigin(planes, index, n - 1, id);
      var i :| 0 <= i < n - 1 && planes[i].id == id && HasBit(planes[i].possibleCrtcs, index);
    } else {
      assert planes[n - 1].id == id;
    }
  }

  lemma {:induction false} PlanesListOrigin(d: Device, n: nat, id: nat) returns (j: nat, i: nat)
    requires Indexed(d) && n <= |d.crtcs| && id in PlanesList(d, n)
    ensures FromCrtc(d, id, j, i)
  {
    if id in PlanesList(d, n - 1) {
      j, i := PlanesListOrigin(d, n - 1, id);
    } else {
      PlanesForOrigin(d.planes, n - 1, |d.planes|, id);
      j := n - 1;
      i :| 0 <= i < |d.planes| && d.planes[i].id == id && HasBit(d.planes[i].possibleCrtcs, n - 1);
    }
  }

  // ----- the order of the list -----

  /** Where entry `a` of the planes of one CRTC comes from. */
  lemma {:induction false} PlanesForAt(planes: seq<Plane>, index: nat, n: nat, a: nat) returns (i: nat)
    requires n <= |planes| && index < 32 && a < |PlanesFor(planes, index, n)|
    ensures i < n && planes[i].id == PlanesFor(planes, index, n)[a] && HasBit(planes[i].possibleCrtcs, index)
  {
    if a < |PlanesFor(planes, index, n - 1)| {
      i := PlanesForAt(planes, index, n - 1, a);
    } else {
      i := n - 1;
    }
  }

  /** The planes of one CRTC are listed in the order of the plane list. */
  lemma {:induction false} PlanesForOrdered(planes: seq<Plane>, index: nat, n: nat, a: nat, b: nat) returns (i: nat, i': nat)
    requires n <= |planes| && index < 32 && a < b < |PlanesFor(planes, index, n)|
    ensures i < i' < n
    ensures planes[i].id == PlanesFor(planes, index, n)[a] && HasBit(planes[i].possibleCrtcs, index)
    ensures planes[i'].id == PlanesFor(planes, index, n)[b] && HasBit(planes[i'].possibleCrtcs, index)
  {
    var before := PlanesFor(planes, index, n - 1);
    if b < |before| {
      i, i' := PlanesForOrdered(planes, index, n - 1, a, b);
    } else {
      i := PlanesForAt(planes, index, n - 1, a);
      i' := n - 1;
    }
  }

  /** An entry of the list is one of the earlier CRTCs, or one of the last CRTC, which is connected then. */
  lemma ListEntry(d: Device, n: nat, a: nat, before: seq<nat>, more: seq<nat>)
    requires Indexed(d) && 0 < n <= |d.crtcs| && a < |PlanesList(d, n)|
    requires before == PlanesList(d, n - 1) && more == PlanesFor(d.planes, n - 1, |d.planes|)
    ensures a < |before| ==> PlanesList(d, n)[a] == before[a]
    ensures a >= |before| ==> d.crtcs[n - 1].connectors != [] && a - |before| < |more| && PlanesList(d, n)[a] == more[a - |before|]
  {
  }

  /** Where entry `a` of the whole list comes from. */
  lemma {:induction false} PlanesListAt(d: Device, n: nat, a: nat) returns (j: nat, i: nat)
    requires Indexed(d) && n <= |d.crtcs| && a < |PlanesList(d, n)|
    ensures j < n && FromCrtc(d, PlanesList(d, n)[a], j, i)
  {
    var before, more := PlanesList(d, n - 1), PlanesFor(d.planes, n - 1, |d.planes|);
    ListEntry(d, n, a, before, more);
    if a < |before| {
      j, i := PlanesListAt(d, n - 1, a);
    } else {
      j := n - 1;
      i := PlanesForAt(d.planes, n - 1, |d.planes|, a - |before|);
    }
  }

  /** CRTC `j` and plane `i` come before CRTC `j'` and plane `i'`. */
  predicate Earlier(j: nat, i: nat, j': nat, i': nat) {
    j < j' || (j == j' && i < i')
  }

  /** The two planes come from a CRTC and a plane of the device each, the first pair earlier. */
  ghost predicate InOrder(d: Device, x: nat, y: nat, j: nat, i: nat, j': nat, i': nat)
    requires Indexed(d)
  {
    FromCrtc(d, x, j, i) && FromCrtc(d, y, j', i') && Earlier(j, i, j', i')
  }

  /** The same for two entries of which the later one comes from the last CRTC. */
  lemma LastInOrder(d: Device, n: nat, a: nat, b: nat, before: seq<nat>, more: seq<nat>) returns (j: nat, i: nat, i': nat)
    requires Indexed(d) && 0 < n <= |d.crtcs| && d.crtcs[n - 1].connectors != []
    requires before == PlanesList(d, n - 1) && more == PlanesFor(d.planes, n - 1, |d.planes|)
    requires a < b && |before| <= b < |before| + |more|
    ensures InOrder(d, if a < |before| then before[a] else more[a - |before|], more[b - |before|], j, i, n - 1, i')
  {
    if a < |before| {
      j, i := PlanesListAt(d, n - 1, a);
      i' := PlanesForAt(d.planes, n - 1, |d.planes|, b - |before|);
    } else {
      j := n - 1;
      i, i' := PlanesForOrdered(d.planes, n - 1, |d.planes|, a - |before|, b - |before|);
    }
  }

  /** getPlanes lists CRTC by CRTC, and the planes of one CRTC in the order of the plane list. */
  lemma {:induction false} PlanesListOrdered(d: Device, n: nat, a: nat, b: nat) returns (j: nat, i: nat, j': nat, i': nat)
    requires Indexed(d) && n <= |d.crtcs| && a < b < |PlanesList(d, n)|
    ensures InOrder(d, PlanesList(d, n)[a], PlanesList(d, n)[b], j, i, j', i')
  {
    var before, more := PlanesList(d, n - 1), PlanesFor(d.planes, n - 1, |d.planes|);
    ListEntry(d, n, a, before, more);
    ListEntry(d, n, b, before, more);
    if b < |before| {
      j, i, j', i' := PlanesListOrdered(d, n - 1, a, b);
    } else {
      j' := n - 1;
      j, i, i' := LastInOrder(d, n, a, b, before, more);
    }
  }

  // ----- from a plane to its CRTC and connector -----

  function PlaneWithId(id: nat): Plane -> bool {
    (p: Plane) => p.id == id
  }

  function PlaneIndex(planes: seq<Plane>, id: nat, i: nat): (k: nat)
    requires i <= |planes|
    ensures i <= k <= |planes|
    ensures k < |planes| ==> planes[k].id == id
    ensures forall m :: i <= m < k ==> planes[m].id != id
  {
    First(planes, PlaneWithId(id), i)
  }

  function CrtcWithIndex(index: nat): Crtc -> bool {
    (c: Crtc) => c.index == index
  }

  /** First CRTC with the index, from `j` on. */
  function CrtcAt(crtcs: seq<Crtc>, index: nat, j: nat): (k: nat)
    requires j <= |crtcs|
    ensures j <= k <= |crtcs|
    ensures k < |crtcs| ==> crtcs[k].index == index
    ensures forall m :: j <= m < k ==> crtcs[m].index != index
  {
    First(crtcs, CrtcWithIndex(index), j)
  }

  /** findCrtc of a plane id; an unknown plane resolves through index 0. */
  function PlaneCrtc(d: Device, planeId: nat): nat {
    var p := PlaneIndex(d.planes, planeId, 0);
    var index := if p < |d.planes| then LowestBit(d.planes[p].possibleCrtcs) else 0;
    var k := CrtcAt(d.crtcs, index, 0);
    if k < |d.crtcs| then d.crtcs[k].id else 0
  }

  function BoundToCrtc(crtcId: nat): Connector -> bool {
    (c: Connector) => c.crtcId == crtcId
  }

  /** First connector bound to the CRTC, from `i` on. */
  function BoundTo(conns: seq<Connector>, crtcId: nat, i: nat): (k: nat)
    requires i <= |conns|
    ensures i <= k <= |conns|
    ensures k < |conns| ==> conns[k].crtcId == crtcId
    ensures forall m :: i <= m < k ==> conns[m].crtcId != crtcId
  {
    First(conns, BoundToCrtc(crtcId), i)
  }

  /** findConnector of a plane id. */
  function PlaneConnector(d: Device, planeId: nat): nat {
    var crtcId := PlaneCrtc(d, planeId);
    var k := BoundTo(d.connectors, crtcId, 0);
    if crtcId != 0 && k < |d.connectors| then d.connectors[k].id else 0
  }

  // ----- sinks -----

  datatype Sink = Sink(planeId: nat, crtcId: nat, connId: nat, connected: bool)

  /** The sink of logical plane `wid`: the plane of its rank in the list, or a dummy. */
  function SinkFor(d: Device, wid: nat): Sink
    requires Indexed(d)
  {
    var list := PlanesList(d, |d.crtcs|);
    if wid < |list| then Sink(list[wid], PlaneCrtc(d, list[wid]), PlaneConnector(d, list[wid]), false)
    else Sink(0, 0, 0, false)
  }

  /** No connector and no CRTC was used before. */
  predicate Unused(d: Device) {
    && (forall i :: 0 <= i < |d.connectors| ==> d.connectors[i].crtcId == 0)
    && (forall j :: 0 <= j < |d.crtcs| ==> d.crtcs[j].connectors == [])
  }

  /** Ids are positive and CRTC ids are distinct; every plane can feed exactly one CRTC. */
  ghost predicate Regular(d: Device) {
    && Indexed(d) && DistinctPlanes(d.planes)
    && (forall j :: 0 <= j < |d.crtcs| ==> d.crtcs[j].id > 0)
    && (forall i, j :: 0 <= i < j < |d.crtcs| ==> d.crtcs[i].id != d.crtcs[j].id)
    && OneBitMasks(d.planes)
  }

  ghost predicate OneBitMasks(planes: seq<Plane>) {
    forall i :: 0 <= i < |planes| ==> exists j :: OneBit(planes[i].possibleCrtcs, j)
  }

  lemma PassRegular(d: Device, hw: Hardware, conf: Size)
    requires Answers(hw, d) && Regular(d)
    ensures Regular(Pass(d, hw, conf))
  {
  }

  /** The list names no plane twice exactly when no plane can feed two connected CRTCs. */
  lemma PlanesDistinctExactly(d: Device)
    requires Indexed(d) && DistinctPlanes(d.planes)
    ensures NoRepeat(PlanesList(d, |d.crtcs|)) <==>
      forall i :: 0 <= i < |d.planes| ==> ConnectedIn(d, d.planes[i].possibleCrtcs, |d.crtcs|) <= 1
  {
    var list := PlanesList(d, |d.crtcs|);
    if !NoRepeat(list) {
      var a, b :| 0 <= a < b < |list| && list[a] == list[b];
      var j, i := PlanesListOrigin(d, |d.crtcs|, list[a]);
      PlanesListCount(d, |d.crtcs|, i);
      TwiceIn(list, a, b);
    } else {
      forall i | 0 <= i < |d.planes|
        ensures ConnectedIn(d, d.planes[i].possibleCrtcs, |d.crtcs|) <= 1
      {
        PlanesListCount(d, |d.crtcs|, i);
        OnceIn(list, d.planes[i].id);
      }
    }
  }

  /** A plane that can feed two connected CRTCs is listed twice. */
  lemma SharedPlaneRepeats(c0: Crtc, c1: Crtc)
    requires c0.index == 0 && c1.index == 1 && c0.connectors != [] && c1.connectors != []
    ensures var d := Device([], [c0, c1], [Plane(31, 3)]);
      Indexed(d) && DistinctPlanes(d.planes) && PlanesList(d, 2) == [31, 31] && !NoRepeat(PlanesList(d, 2))
  {
    var d := Device([], [c0, c1], [Plane(31, 3)]);
    assert HasBit(3, 0) && HasBit(3, 1);
    assert PlanesFor(d.planes, 0, |d.planes|) == [31] && PlanesFor(d.planes, 1, |d.planes|) == [31];
    assert PlanesList(d, 1) == [31];
    var list := PlanesList(d, 2);
    assert list[0] == list[1];
  }

  lemma {:induction false} OnceIn(s: seq<nat>, x: nat)
    requires NoRepeat(s)
    ensures multiset(s)[x] <= 1
  {
    if |s| > 0 {
      var front, last := s[..|s| - 1], s[|s| - 1];
      assert s == front + [last];
      OnceIn(front, x);
      CountAppend(front, last, x);
      if x == last {
        assert x !in front;
      }
    }
  }

  /** In a device with one CRTC per plane, the list names no plane twice. */
  lemma PlanesDistinct(d: Device)
    requires Regular(d)
    ensures NoRepeat(PlanesList(d, |d.crtcs|))
  {
    forall i | 0 <= i < |d.planes|
      ensures ConnectedIn(d, d.planes[i].possibleCrtcs, |d.crtcs|) <= 1
    {
      var k :| OneBit(d.planes[i].possibleCrtcs, k);
      AtMostOneConnected(d, d.planes[i].possibleCrtcs, k, |d.crtcs|);
    }
    PlanesDistinctExactly(d);
  }

  lemma {:induction false} AtMostOneConnected(d: Device, mask: bv32, k: nat, n: nat)
    requires Indexed(d) && n <= |d.crtcs| && OneBit(mask, k)
    ensures ConnectedIn(d, mask, n) <= if k < n then 1 else 0
  {
    if n > 0 {
      AtMostOneConnected(d, mask, k, n - 1);
    }
  }

  lemma TwiceIn(s: seq<nat>, a: nat, b: nat)
    requires a < b < |s| && s[a] == s[b]
    ensures multiset(s)[s[a]] >= 2
  {
    assert s == s[..b] + s[b..];
    assert s[..b][a] in multiset(s[..b]) && s[b..][0] in multiset(s[b..]);
  }

  /** A plane on the list resolves to the connected CRTC that selected it. */
  lemma PlaneResolves(d: Device, id: nat) returns (j: nat, i: nat)
    requires Regular(d) && id in PlanesList(d, |d.crtcs|)
    ensures FromCrtc(d, id, j, i) && PlaneCrtc(d, id) == d.crtcs[j].id
  {
    j, i := PlanesListOrigin(d, |d.crtcs|, id);
    var k :| OneBit(d.planes[i].possibleCrtcs, k);
    OneBitIsLowest(d.planes[i].possibleCrtcs, k, j);
    assert PlaneIndex(d.planes, id, 0) == i;
    assert CrtcAt(d.crtcs, j, 0) == j;
  }

  /** A CRTC that a first pass connected has a plugged connector bound to it. */
  lemma ConnectedIsBound(d0: Device, hw: Hardware, conf: Size, j: nat)
    requires Answers(hw, d0) && Unused(d0) && Regular(d0) && j < |d0.crtcs|
    requires Pass(d0, hw, conf).crtcs[j].connectors != []
    ensures var d := Pass(d0, hw, conf);
      var k := BoundTo(d.connectors, d.crtcs[j].id, 0);
      && k < |d.connectors| && d.connectors[k].crtcId == d.crtcs[j].id
      && Plugged(hw.connectors[d.connectors[k].id]) && CrtcFor(hw.connectors[d.connectors[k].id], hw) == d.crtcs[j].id
  {
    var d := Pass(d0, hw, conf);
    if Taker(d0, hw, j).None? {
      UntouchedCrtc(d0, hw, conf, j);
    } else {
      var t := Taker(d0, hw, j).value;
      ConnectorsRefreshed(d0, hw, conf, |d0.connectors|, t);
      assert d.connectors[t].crtcId == d.crtcs[j].id;
      var k := BoundTo(d.connectors, d.crtcs[j].id, 0);
      ConnectorsRefreshed(d0, hw, conf, |d0.connectors|, k);
    }
  }

  /** The sink's plane can feed exactly CRTC `j`, which is the sink's; connector `k` is the sink's, plugged and bound to that CRTC. */
  ghost predicate SinkVia(d: Device, hw: Hardware, s: Sink, j: nat, i: nat, k: nat)
    requires Indexed(d)
  {
    && FromCrtc(d, s.planeId, j, i) && s.crtcId == d.crtcs[j].id
    && k < |d.connectors| && d.connectors[k].id == s.connId && d.connectors[k].crtcId == s.crtcId
    && s.connId in hw.connectors && Plugged(hw.connectors[s.connId])
    && |hw.crtcs| <= 32 && CrtcFor(hw.connectors[s.connId], hw) == s.crtcId
  }

  ghost predicate SinkGood(d: Device, hw: Hardware, s: Sink)
    requires Indexed(d)
  {
    exists j: nat, i: nat, k: nat :: SinkVia(d, hw, s, j, i, k)
  }

  /** After construction, a sink with a plane has the CRTC that selected the plane, and a plugged connector that is
      bound to that CRTC; sinks beyond the list are dummies. */
  lemma SinksConsistent(d0: Device, hw: Hardware, conf: Size, wid: nat)
    requires Answers(hw, d0) && Unused(d0) && Regular(d0)
    ensures var d := Pass(d0, hw, conf);
      && Indexed(d)
      && (wid < |PlanesList(d, |d.crtcs|)| ==> SinkGood(d, hw, SinkFor(d, wid)))
      && (wid >= |PlanesList(d, |d.crtcs|)| ==> SinkFor(d, wid) == Sink(0, 0, 0, false))
  {
    PassRegular(d0, hw, conf);
    var d := Pass(d0, hw, conf);
    var list := PlanesList(d, |d.crtcs|);
    if wid < |list| {
      var s := SinkFor(d, wid);
      var j, i := PlaneResolves(d, list[wid]);
      ConnectedIsBound(d0, hw, conf, j);
      var k := BoundTo(d.connectors, d.crtcs[j].id, 0);
      assert SinkVia(d, hw, s, j, i, k);
    }
  }

  /** Sinks get their planes in that order: of two logical planes the lower one has the earlier CRTC, or the earlier plane of the
      same CRTC. */
  lemma SinksOrdered(d: Device, a: nat, b: nat) returns (j: nat, i: nat, j': nat, i': nat)
    requires Indexed(d) && a < b < |PlanesList(d, |d.crtcs|)|
    ensures InOrder(d, SinkFor(d, a).planeId, SinkFor(d, b).planeId, j, i, j', i')
    ensures !SinkFor(d, a).connected && !SinkFor(d, b).connected
  {
    j, i, j', i' := PlanesListOrdered(d, |d.crtcs|, a, b);
  }

  /** A plane without a CRTC in its mask resolves to no CRTC and no connector; a plane that the device does not list resolves
      like one whose mask names the first CRTC. */
  lemma OtherPlanes(d: Device, id: nat)
    requires Indexed(d) && |d.crtcs| > 0
    ensures var p := PlaneIndex(d.planes, id, 0);
      && (p < |d.planes| && (forall j :: 0 <= j < 32 ==> !HasBit(d.planes[p].possibleCrtcs, j)) ==>
            PlaneCrtc(d, id) == 0 && PlaneConnector(d, id) == 0)
      && (p == |d.planes| ==> PlaneCrtc(d, id) == d.crtcs[0].id)
  {
    assert CrtcAt(d.crtcs, 0, 0) == 0;
  }

  /** Two sinks with planes never share one. */
  lemma SinksDistinct(d0: Device, hw: Hardware, conf: Size, a: nat, b: nat)
    requires Answers(hw, d0) && Regular(d0) && a != b
    ensures var d := Pass(d0, hw, conf);
      Indexed(d) && (a < |PlanesList(d, |d.crtcs|)| && b < |PlanesList(d, |d.crtcs|)| ==> SinkFor(d, a).planeId != SinkFor(d, b).planeId)
  {
    PassRegular(d0, hw, conf);
    var d := Pass(d0, hw, conf);
    if a < |PlanesList(d, |d.crtcs|)| && b < |PlanesList(d, |d.crtcs|)| {
      PlanesDistinct(d);
    }
  }
}
