/** The connectors, CRTCs and planes of a card as values, and one hotplug pass over them. */
module DeviceModel {
  import opened Formats
  import opened Drm
  import opened CrtcChoice
  import opened Searches

  /** DrmConnector: `info` is the answer fetched last, `crtcId` the CRTC it was bound to, 0 for none. */
  datatype Connector = Connector(id: nat, crtcId: nat, info: ConnectorInfo)

  /** DrmCrtc: `connectors` lists the set in iteration order, `fb` is 0 and `bo` None while there is no scanout buffer. */
  datatype Crtc = Crtc(id: nat, index: nat, connectors: seq<nat>, fb: nat, bo: Option<nat>, max: Size, min: Size)

  datatype Plane = Plane(id: nat, possibleCrtcs: bv32)

  datatype Device = Device(connectors: seq<Connector>, crtcs: seq<Crtc>, planes: seq<Plane>)

  /** The kernel still answers for every connector and has at most 32 CRTCs. */
  predicate Answers(hw: Hardware, d: Device) {
    |hw.crtcs| <= 32 && forall i :: 0 <= i < |d.connectors| ==> d.connectors[i].id in hw.connectors
  }

  // ----- searches -----

  function CrtcWithId(id: nat): Crtc -> bool {
    (c: Crtc) => c.id == id
  }

  /** First CRTC with the id, from `j` on; the number of CRTCs when there is none. */
  function CrtcIndex(crtcs: seq<Crtc>, id: nat, j: nat): (k: nat)
    requires j <= |crtcs|
    ensures j <= k <= |crtcs|
    ensures k < |crtcs| ==> crtcs[k].id == id
    ensures forall i :: j <= i < k ==> crtcs[i].id != id
  {
    First(crtcs, CrtcWithId(id), j)
  }

  // ----- one hotplug pass -----

  /** The limits a CRTC takes from the modes of its connector: the first mode if it is real and too small, else the configured size. */
  function MaxFor(modes: seq<Mode>, conf: Size): Size
    requires |modes| > 0
  {
    var m := modes[0];
    if (m.hdisplay < conf.w || m.vdisplay < conf.h) && m.hdisplay != 0 && m.vdisplay != 0
    then Size(m.hdisplay, m.vdisplay) else conf
  }

  function MinFor(modes: seq<Mode>): Size
    requires |modes| > 0
  {
    Size(modes[|modes| - 1].hdisplay, modes[|modes| - 1].vdisplay)
  }

  /** A CRTC after a plugged connector was bound to it. */
  function Bind(c: Crtc, connId: nat, info: ConnectorInfo, conf: Size): Crtc
    requires Plugged(info)
  {
    c.(connectors := [connId], max := MaxFor(info.modes, conf), min := MinFor(info.modes))
  }

  /** The CRTC id that connector `i` asks for, 0 when it is unplugged or resolves to none. */
  function Wanted(d: Device, hw: Hardware, i: nat): nat
    requires Answers(hw, d) && i < |d.connectors|
  {
    var info := hw.connectors[d.connectors[i].id];
    if Plugged(info) then CrtcFor(info, hw) else 0
  }

  /** The pass over connector `i`. */
  function SetupOne(d: Device, hw: Hardware, conf: Size, i: nat): (d': Device)
    requires Answers(hw, d) && i < |d.connectors|
    ensures SameShape(d, d')
  {
    var info := hw.connectors[d.connectors[i].id];
    var c := d.connectors[i].(info := info);
    var want := Wanted(d, hw, i);
    if want == 0 then d.(connectors := d.connectors[i := c])
    else
      var k := CrtcIndex(d.crtcs, want, 0);
      d.(connectors := d.connectors[i := c.(crtcId := want)],
         crtcs := if k < |d.crtcs| then d.crtcs[k := Bind(d.crtcs[k], c.id, info, conf)] else d.crtcs)
  }

  /** The pass over the first `n` connectors. */
  function Setup(d: Device, hw: Hardware, conf: Size, n: nat): (d': Device)
    requires Answers(hw, d) && n <= |d.connectors|
    ensures SameShape(d, d')
  {
    if n == 0 then d else SetupOne(Setup(d, hw, conf, n - 1), hw, conf, n - 1)
  }

  /** The same connectors, CRTCs and planes by identity. */
  ghost predicate SameShape(d: Device, d': Device) {
    && |d'.connectors| == |d.connectors| && |d'.crtcs| == |d.crtcs| && d'.planes == d.planes
    && (forall i :: 0 <= i < |d.connectors| ==> d'.connectors[i].id == d.connectors[i].id)
    && (forall j :: 0 <= j < |d.crtcs| ==> d'.crtcs[j].id == d.crtcs[j].id && d'.crtcs[j].index == d.crtcs[j].index)
  }

  // ----- last writer wins -----

  /** Connector `i` is plugged and resolves to CRTC number `j`. */
  predicate Takes(d: Device, hw: Hardware, i: nat, j: nat)
    requires Answers(hw, d) && i < |d.connectors|
  {
    Wanted(d, hw, i) != 0 && j < |d.crtcs| && CrtcIndex(d.crtcs, Wanted(d, hw, i), 0) == j
  }

  /** The last of the first `n` connectors that takes CRTC `j`. */
  function LastTaker(d: Device, hw: Hardware, j: nat, n: nat): (i: Option<nat>)
    requires Answers(hw, d) && n <= |d.connectors|
    ensures i.Some? ==> i.value < n && Takes(d, hw, i.value, j)
    ensures i.Some? ==> forall k :: i.value < k < n ==> !Takes(d, hw, k, j)
    ensures i.None? ==> forall k :: 0 <= k < n ==> !Takes(d, hw, k, j)
  {
    if n == 0 then None
    else if Takes(d, hw, n - 1, j) then Some(n - 1)
    else LastTaker(d, hw, j, n - 1)
  }

  /** CRTC `j` after the pass: as its last taker leaves it, or untouched. */
  function CrtcAfter(d: Device, hw: Hardware, conf: Size, j: nat, n: nat): Crtc
    requires Answers(hw, d) && n <= |d.connectors| && j < |d.crtcs|
  {
    match LastTaker(d, hw, j, n)
    case None => d.crtcs[j]
    case Some(i) => Bind(d.crtcs[j], d.connectors[i].id, hw.connectors[d.connectors[i].id], conf)
  }

  /** Connector `i` after the pass: refreshed, and bound when it wants a CRTC. */
  function ConnectorAfter(d: Device, hw: Hardware, i: nat): Connector
    requires Answers(hw, d) && i < |d.connectors|
  {
    var c := d.connectors[i].(info := hw.connectors[d.connectors[i].id]);
    if Wanted(d, hw, i) == 0 then c else c.(crtcId := Wanted(d, hw, i))
  }

  lemma WantedSame(d: Device, d': Device, hw: Hardware, i: nat, j: nat)
    requires Answers(hw, d) && Answers(hw, d') && SameShape(d, d') && i < |d.connectors|
    ensures Wanted(d, hw, i) == Wanted(d', hw, i)
    ensures Takes(d, hw, i, j) == Takes(d', hw, i, j)
  {
    FirstSame(d.crtcs, d'.crtcs, CrtcWithId(Wanted(d, hw, i)), 0);
  }

  /** The pass over one connector changes the CRTC it takes, and no other. */
  lemma SetupOneAt(d: Device, hw: Hardware, conf: Size, i: nat, j: nat)
    requires Answers(hw, d) && i < |d.connectors| && j < |d.crtcs|
    ensures SetupOne(d, hw, conf, i).crtcs[j] ==
      if Takes(d, hw, i, j) then Bind(d.crtcs[j], d.connectors[i].id, hw.connectors[d.connectors[i].id], conf) else d.crtcs[j]
  {
  }

  lemma CrtcAfterStep(d: Device, hw: Hardware, conf: Size, j: nat, n: nat)
    requires Answers(hw, d) && 0 < n <= |d.connectors| && j < |d.crtcs|
    ensures var before := CrtcAfter(d, hw, conf, j, n - 1);
      && before.id == d.crtcs[j].id && before.index == d.crtcs[j].index
      && CrtcAfter(d, hw, conf, j, n) ==
           if Takes(d, hw, n - 1, j) then Bind(before, d.connectors[n - 1].id, hw.connectors[d.connectors[n - 1].id], conf) else before
  {
  }

  lemma LastStep(d: Device, mid: Device, hw: Hardware, conf: Size, i: nat, j: nat)
    requires Answers(hw, d) && Answers(hw, mid) && SameShape(d, mid) && i < |d.connectors| && j < |d.crtcs|
    ensures SetupOne(mid, hw, conf, i).crtcs[j] ==
      if Takes(d, hw, i, j) then Bind(mid.crtcs[j], d.connectors[i].id, hw.connectors[d.connectors[i].id], conf) else mid.crtcs[j]
  {
    WantedSame(d, mid, hw, i, j);
    SetupOneAt(mid, hw, conf, i, j);
  }

  lemma WriterStep(d: Device, mid: Device, hw: Hardware, conf: Size, n: nat, j: nat)
    requires Answers(hw, d) && 0 < n <= |d.connectors| && j < |d.crtcs| && SameShape(d, mid)
    requires mid.crtcs[j] == CrtcAfter(d, hw, conf, j, n - 1)
    ensures Answers(hw, mid) && SetupOne(mid, hw, conf, n - 1).crtcs[j] == CrtcAfter(d, hw, conf, j, n)
  {
    assert Answers(hw, mid);
    LastStep(d, mid, hw, conf, n - 1, j);
    CrtcAfterStep(d, hw, conf, j, n);
  }

  /** Each CRTC ends as its last taker leaves it. */
  lemma {:induction false} LastWriterWins(d: Device, hw: Hardware, conf: Size, n: nat, j: nat)
    requires Answers(hw, d) && n <= |d.connectors| && j < |d.crtcs|
    ensures Setup(d, hw, conf, n).crtcs[j] == CrtcAfter(d, hw, conf, j, n)
  {
    if n > 0 {
      LastWriterWins(d, hw, conf, n - 1, j);
      WriterStep(d, Setup(d, hw, conf, n - 1), hw, conf, n, j);
    }
  }

  lemma SetupOneConnector(d: Device, hw: Hardware, conf: Size, i: nat, k: nat)
    requires Answers(hw, d) && i < |d.connectors| && k < |d.connectors|
    ensures SetupOne(d, hw, conf, i).connectors[k] == if k == i then ConnectorAfter(d, hw, i) else d.connectors[k]
  {
  }

  lemma RefreshedStep(d: Device, mid: Device, hw: Hardware, conf: Size, n: nat, i: nat)
    requires Answers(hw, d) && 0 < n <= |d.connectors| && i < |d.connectors| && SameShape(d, mid)
    requires mid.connectors[i] == if i < n - 1 then ConnectorAfter(d, hw, i) else d.connectors[i]
    ensures Answers(hw, mid)
    ensures SetupOne(mid, hw, conf, n - 1).connectors[i] == if i < n then ConnectorAfter(d, hw, i) else d.connectors[i]
  {
    assert Answers(hw, mid);
    WantedSame(d, mid, hw, n - 1, 0);
    SetupOneConnector(mid, hw, conf, n - 1, i);
  }

  /** Each connector ends as the kernel reports it, bound to the CRTC it wants. */
  lemma {:induction false} ConnectorsRefreshed(d: Device, hw: Hardware, conf: Size, n: nat, i: nat)
    requires Answers(hw, d) && n <= |d.connectors| && i < |d.connectors|
    ensures Setup(d, hw, conf, n).connectors[i] == if i < n then ConnectorAfter(d, hw, i) else d.connectors[i]
  {
    if n > 0 {
      ConnectorsRefreshed(d, hw, conf, n - 1, i);
      RefreshedStep(d, Setup(d, hw, conf, n - 1), hw, conf, n, i);
    }
  }

  // ----- what a whole pass guarantees -----

  /** setupDevice: the pass over every connector. */
  function Pass(d: Device, hw: Hardware, conf: Size): Device
    requires Answers(hw, d)
  {
    Setup(d, hw, conf, |d.connectors|)
  }

  function Taker(d: Device, hw: Hardware, j: nat): Option<nat>
    requires Answers(hw, d)
  {
    LastTaker(d, hw, j, |d.connectors|)
  }

  lemma {:induction false} TakerSame(d: Device, d': Device, hw: Hardware, j: nat, n: nat)
    requires Answers(hw, d) && Answers(hw, d') && SameShape(d, d') && n <= |d.connectors|
    ensures LastTaker(d, hw, j, n) == LastTaker(d', hw, j, n)
  {
    if n > 0 {
      WantedSame(d, d', hw, n - 1, j);
      TakerSame(d, d', hw, j, n - 1);
    }
  }

  /** A touched CRTC depends on the hardware and the configured size only, whatever happened before. */
  lemma HistoryIndependent(d: Device, d': Device, hw: Hardware, conf: Size, j: nat)
    requires Answers(hw, d) && Answers(hw, d') && SameShape(d, d') && j < |d.crtcs| && Taker(d, hw, j).Some?
    ensures var c, c' := Pass(d, hw, conf).crtcs[j], Pass(d', hw, conf).crtcs[j];
      c.connectors == c'.connectors && c.max == c'.max && c.min == c'.min
  {
    LastWriterWins(d, hw, conf, |d.connectors|, j);
    LastWriterWins(d', hw, conf, |d.connectors|, j);
    TakerSame(d, d', hw, j, |d.connectors|);
  }

  /** A second pass over the same hardware changes nothing. */
  lemma PassIdempotent(d: Device, hw: Hardware, conf: Size)
    requires Answers(hw, d)
    ensures Answers(hw, Pass(d, hw, conf)) && Pass(Pass(d, hw, conf), hw, conf) == Pass(d, hw, conf)
  {
    var once := Pass(d, hw, conf);
    var twice := Pass(once, hw, conf);
    forall j | 0 <= j < |d.crtcs|
      ensures twice.crtcs[j] == once.crtcs[j]
    {
      LastWriterWins(d, hw, conf, |d.connectors|, j);
      LastWriterWins(once, hw, conf, |d.connectors|, j);
      TakerSame(d, once, hw, j, |d.connectors|);
    }
    forall i | 0 <= i < |d.connectors|
      ensures twice.connectors[i] == once.connectors[i]
    {
      ConnectorsRefreshed(d, hw, conf, |d.connectors|, i);
      ConnectorsRefreshed(once, hw, conf, |d.connectors|, i);
      WantedSame(d, once, hw, i, 0);
    }
    assert twice.crtcs == once.crtcs && twice.connectors == once.connectors;
  }

  /** A touched CRTC drives exactly its last taker, a connector that is connected and has modes.  Its limit is the first mode of
      that connector when the mode is real and does not reach the configured size in both dimensions, and the configured size
      otherwise; its minimum is the last mode. */
  lemma TouchedCrtc(d: Device, hw: Hardware, conf: Size, j: nat)
    requires Answers(hw, d) && j < |d.crtcs| && Taker(d, hw, j).Some?
    ensures var c := Pass(d, hw, conf).crtcs[j];
      var conn := d.connectors[Taker(d, hw, j).value];
      var modes := hw.connectors[conn.id].modes;
      && c.connectors == [conn.id] && hw.connectors[conn.id].connected && |modes| > 0
      && var usable := modes[0].hdisplay > 0 && modes[0].vdisplay > 0;
         var reaches := modes[0].hdisplay >= conf.w && modes[0].vdisplay >= conf.h;
      && (usable && !reaches ==> c.max == Size(modes[0].hdisplay, modes[0].vdisplay))
      && (!usable || reaches ==> c.max == conf)
      && c.min == Size(modes[|modes| - 1].hdisplay, modes[|modes| - 1].vdisplay)
      && (modes[0].hdisplay != 0 && modes[0].vdisplay != 0 ==> c.max.w <= modes[0].hdisplay && c.max.h <= modes[0].vdisplay)
      && c.id == d.crtcs[j].id && c.index == d.crtcs[j].index && c.fb == d.crtcs[j].fb && c.bo == d.crtcs[j].bo
  {
    LastWriterWins(d, hw, conf, |d.connectors|, j);
  }

  /** A connector that is not connected or has no modes is refetched, keeps its binding and takes no CRTC. */
  lemma UnpluggedIgnored(d: Device, hw: Hardware, conf: Size, i: nat, j: nat)
    requires Answers(hw, d) && i < |d.connectors|
    requires var info := hw.connectors[d.connectors[i].id]; !info.connected || |info.modes| == 0
    ensures Pass(d, hw, conf).connectors[i] == d.connectors[i].(info := hw.connectors[d.connectors[i].id])
    ensures Taker(d, hw, j) != Some(i)
  {
    ConnectorsRefreshed(d, hw, conf, |d.connectors|, i);
  }

  /** A connected connector with modes is bound to the CRTC it resolves to, also when the device does not list that CRTC; when
      it resolves to none it keeps its binding. */
  lemma PluggedBound(d: Device, hw: Hardware, conf: Size, i: nat)
    requires Answers(hw, d) && i < |d.connectors|
    requires var info := hw.connectors[d.connectors[i].id]; info.connected && |info.modes| > 0
    ensures var info, c := hw.connectors[d.connectors[i].id], Pass(d, hw, conf).connectors[i];
      && c.id == d.connectors[i].id && c.info == info
      && c.crtcId == if CrtcFor(info, hw) != 0 then CrtcFor(info, hw) else d.connectors[i].crtcId
  {
    ConnectorsRefreshed(d, hw, conf, |d.connectors|, i);
  }

  /** An untouched CRTC keeps everything, a connector that was unplugged since included. */
  lemma UntouchedCrtc(d: Device, hw: Hardware, conf: Size, j: nat)
    requires Answers(hw, d) && j < |d.crtcs| && Taker(d, hw, j).None?
    ensures Pass(d, hw, conf).crtcs[j] == d.crtcs[j]
  {
    LastWriterWins(d, hw, conf, |d.connectors|, j);
  }
}
