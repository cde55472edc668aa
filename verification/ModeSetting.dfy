/** Setting a mode: the search for a supported mode, the new scanout buffer and the request to the kernel. */
module ModeSetting {
  import opened Formats
  import opened Drm
  import opened DeviceModel
  import opened Searches
  import opened Scanout
  import opened ModeNames

  // ----- modes of a connector -----

  predicate Matches(m: Mode, name: string, vRefresh: nat) {
    m.name == name && (vRefresh == 0 || m.vrefresh == vRefresh)
  }

  /** The mode matches, and none before it does. */
  ghost predicate FirstMatch(modes: seq<Mode>, name: string, vRefresh: nat, i: nat, m: Mode) {
    exists k :: i <= k < |modes| && modes[k] == m && Matches(m, name, vRefresh) && NoneBefore(modes, name, vRefresh, i, k)
  }

  predicate NoneBefore(modes: seq<Mode>, name: string, vRefresh: nat, i: nat, k: nat)
    requires k <= |modes|
  {
    forall l :: i <= l < k ==> !Matches(modes[l], name, vRefresh)
  }

  /** First mode with the name and, when given, the refresh rate. */
  function FindMode(modes: seq<Mode>, name: string, vRefresh: nat, i: nat): (m: Option<Mode>)
    requires i <= |modes|
    ensures m.Some? ==> FirstMatch(modes, name, vRefresh, i, m.value)
    ensures m.None? ==> forall k :: i <= k < |modes| ==> !Matches(modes[k], name, vRefresh)
    decreases |modes| - i
  {
    if i == |modes| then None
    else if Matches(modes[i], name, vRefresh) then
      assert NoneBefore(modes, name, vRefresh, i, i);
      Some(modes[i])
    else
      FindModeStep(modes, name, vRefresh, i);
      FindMode(modes, name, vRefresh, i + 1)
  }

  lemma FindModeStep(modes: seq<Mode>, name: string, vRefresh: nat, i: nat)
    requires i < |modes| && !Matches(modes[i], name, vRefresh)
    ensures forall m :: FirstMatch(modes, name, vRefresh, i + 1, m) ==> FirstMatch(modes, name, vRefresh, i, m)
  {
    forall m | FirstMatch(modes, name, vRefresh, i + 1, m)
      ensures FirstMatch(modes, name, vRefresh, i, m)
    {
      var k :| i + 1 <= k < |modes| && modes[k] == m && Matches(m, name, vRefresh) && NoneBefore(modes, name, vRefresh, i + 1, k);
      assert NoneBefore(modes, name, vRefresh, i, k);
    }
  }

  function Lookup(info: ConnectorInfo, size: Size): Option<Mode> {
    FindMode(info.modes, ModeName(size.w, size.h), 0, 0)
  }

  // ----- the connectors of a CRTC -----

  function ConnectorWithId(id: nat): Connector -> bool {
    (c: Connector) => c.id == id
  }

  /** First connector with the id, from `i` on; the number of connectors when there is none. */
  function ConnIndex(conns: seq<Connector>, id: nat, i: nat): (k: nat)
    requires i <= |conns|
    ensures i <= k <= |conns|
    ensures k < |conns| ==> conns[k].id == id
    ensures forall m :: i <= m < k ==> conns[m].id != id
  {
    First(conns, ConnectorWithId(id), i)
  }

  /** The kernel answers for every connector. */
  predicate Known(conns: seq<Connector>, hw: Hardware) {
    forall i :: 0 <= i < |conns| ==> conns[i].id in hw.connectors
  }

  /** isPlugged fetches the connector again. */
  function Refresh(conns: seq<Connector>, hw: Hardware, i: nat): seq<Connector>
    requires i < |conns| && Known(conns, hw)
  {
    conns[i := conns[i].(info := hw.connectors[conns[i].id])]
  }

  datatype Choice = Refused | Chosen(mode: Option<Mode>)

  /** The check of the first `n` connectors of a CRTC; a plugged one without the mode refuses. */
  function Check(conns: seq<Connector>, ids: seq<nat>, n: nat, size: Size, hw: Hardware): (r: (seq<Connector>, Choice))
    requires n <= |ids| && Known(conns, hw)
    ensures |r.0| == |conns| && forall i :: 0 <= i < |conns| ==> r.0[i].id == conns[i].id && r.0[i].crtcId == conns[i].crtcId
  {
    if n == 0 then (conns, Chosen(None))
    else
      var (cs, choice) := Check(conns, ids, n - 1, size, hw);
      if choice.Refused? then (cs, Refused)
      else
        var i := ConnIndex(cs, ids[n - 1], 0);
        if i == |cs| then (cs, choice)
        else
          var info := hw.connectors[cs[i].id];
          if !Plugged(info) then (Refresh(cs, hw, i), choice)
          else
            var m := Lookup(info, size);
            (Refresh(cs, hw, i),
             if m.None? then Refused else if choice.mode.None? then Chosen(m) else choice)
  }

  /** The connector is listed, plugged, and offers a mode of this name. */
  predicate Supports(conns: seq<Connector>, hw: Hardware, id: nat, size: Size)
    requires Known(conns, hw)
  {
    ConnIndex(conns, id, 0) < |conns| && Plugged(hw.connectors[id]) && Lookup(hw.connectors[id], size).Some?
  }

  predicate PluggedMember(conns: seq<Connector>, hw: Hardware, id: nat)
    requires Known(conns, hw)
  {
    ConnIndex(conns, id, 0) < |conns| && Plugged(hw.connectors[id])
  }

  lemma CheckStep(conns: seq<Connector>, ids: seq<nat>, n: nat, size: Size, hw: Hardware)
    requires 0 < n <= |ids| && Known(conns, hw)
    ensures var before, after, id := Check(conns, ids, n - 1, size, hw).1, Check(conns, ids, n, size, hw).1, ids[n - 1];
      after ==
        if before.Refused? || !PluggedMember(conns, hw, id) then before
        else if !Supports(conns, hw, id, size) then Refused
        else if before.mode.None? then Chosen(Lookup(hw.connectors[id], size)) else before
  {
    FirstSame(conns, Check(conns, ids, n - 1, size, hw).0, ConnectorWithId(ids[n - 1]), 0);
  }

  /** A check is refused exactly when a plugged member lacks the mode. */
  lemma {:induction false} CheckRefuses(conns: seq<Connector>, ids: seq<nat>, n: nat, size: Size, hw: Hardware)
    requires n <= |ids| && Known(conns, hw)
    ensures Check(conns, ids, n, size, hw).1.Chosen? <==>
      forall i :: 0 <= i < n && PluggedMember(conns, hw, ids[i]) ==> Supports(conns, hw, ids[i], size)
  {
    if n > 0 {
      CheckRefuses(conns, ids, n - 1, size, hw);
      CheckStep(conns, ids, n, size, hw);
    }
  }

  /** Member `i` is the first one that is plugged. */
  predicate FirstPlugged(conns: seq<Connector>, hw: Hardware, ids: seq<nat>, i: int)
    requires Known(conns, hw)
  {
    0 <= i < |ids| && PluggedMember(conns, hw, ids[i]) && forall l :: 0 <= l < i ==> !PluggedMember(conns, hw, ids[l])
  }

  /** `mode` is the mode of the first plugged one of the first `n` members, or none when none of them is plugged. */
  ghost predicate ChosenBy(conns: seq<Connector>, ids: seq<nat>, n: nat, size: Size, hw: Hardware, mode: Option<Mode>)
    requires n <= |ids| && Known(conns, hw)
  {
    && (mode.None? ==> forall i :: 0 <= i < n ==> !PluggedMember(conns, hw, ids[i]))
    && (mode.Some? ==> exists i :: i < n && FirstPlugged(conns, hw, ids, i) && Supports(conns, hw, ids[i], size) &&
                                   mode == Lookup(hw.connectors[ids[i]], size))
  }

  lemma ChosenNext(conns: seq<Connector>, ids: seq<nat>, n: nat, size: Size, hw: Hardware, mode: Option<Mode>)
    requires n < |ids| && Known(conns, hw) && ChosenBy(conns, ids, n, size, hw, mode)
    requires PluggedMember(conns, hw, ids[n]) ==> Supports(conns, hw, ids[n], size)
    ensures ChosenBy(conns, ids, n + 1, size, hw,
                     if mode.None? && PluggedMember(conns, hw, ids[n]) then Lookup(hw.connectors[ids[n]], size) else mode)
  {
    if mode.Some? {
      var i :| i < n && FirstPlugged(conns, hw, ids, i) && Supports(conns, hw, ids[i], size) && mode == Lookup(hw.connectors[ids[i]], size);
      assert i < n + 1;
    } else if PluggedMember(conns, hw, ids[n]) {
      assert FirstPlugged(conns, hw, ids, n);
    }
  }

  /** A check that is not refused answers with the mode of the first plugged member. */
  lemma {:induction false} CheckChooses(conns: seq<Connector>, ids: seq<nat>, n: nat, size: Size, hw: Hardware)
    requires n <= |ids| && Known(conns, hw) && Check(conns, ids, n, size, hw).1.Chosen?
    ensures ChosenBy(conns, ids, n, size, hw, Check(conns, ids, n, size, hw).1.mode)
  {
    if n > 0 {
      CheckStep(conns, ids, n, size, hw);
      CheckChooses(conns, ids, n - 1, size, hw);
      ChosenNext(conns, ids, n - 1, size, hw, Check(conns, ids, n - 1, size, hw).1.mode);
    }
  }

  /** One of the first `n` ids names connector `i`. */
  ghost predicate Named(conns: seq<Connector>, ids: seq<nat>, n: nat, i: nat)
    requires n <= |ids|
  {
    exists j :: 0 <= j < n && ConnIndex(conns, ids[j], 0) == i
  }

  lemma NamedStep(conns: seq<Connector>, ids: seq<nat>, n: nat, i: nat)
    requires 0 < n <= |ids|
    ensures Named(conns, ids, n, i) <==> Named(conns, ids, n - 1, i) || ConnIndex(conns, ids[n - 1], 0) == i
  {
  }

  lemma FetchStep(conns: seq<Connector>, ids: seq<nat>, n: nat, size: Size, hw: Hardware)
    requires 0 < n <= |ids| && Known(conns, hw) && Check(conns, ids, n, size, hw).1.Chosen?
    ensures Check(conns, ids, n - 1, size, hw).1.Chosen?
    ensures var cs, k := Check(conns, ids, n - 1, size, hw).0, ConnIndex(conns, ids[n - 1], 0);
      Check(conns, ids, n, size, hw).0 == if k == |conns| then cs else Refresh(cs, hw, k)
  {
    FirstSame(conns, Check(conns, ids, n - 1, size, hw).0, ConnectorWithId(ids[n - 1]), 0);
  }

  /** A check that is not refused has fetched exactly the named connectors again. */
  lemma {:induction false} CheckFetches(conns: seq<Connector>, ids: seq<nat>, n: nat, size: Size, hw: Hardware, i: nat)
    requires n <= |ids| && Known(conns, hw) && Check(conns, ids, n, size, hw).1.Chosen? && i < |conns|
    ensures Check(conns, ids, n, size, hw).0[i] == if Named(conns, ids, n, i) then conns[i].(info := hw.connectors[conns[i].id]) else conns[i]
  {
    if n > 0 {
      FetchStep(conns, ids, n, size, hw);
      CheckFetches(conns, ids, n - 1, size, hw, i);
      NamedStep(conns, ids, n, i);
    }
  }

  // ----- setActiveMode -----

  /** What setActiveMode makes of CRTC `j` and the kernel; `ok` is false for its result -1. */
  datatype Outcomes = Outcomes(device: Device, kernel: Resources, ok: bool)

  function SetMode(d: Device, k: Resources, j: nat, size: Size, hw: Hardware, o: Outcome): Outcomes
    requires j < |d.crtcs| && Known(d.connectors, hw)
  {
    var c := d.crtcs[j];
    if c.connectors == [] then Outcomes(d, k, false)
    else
      var (conns, choice) := Check(d.connectors, c.connectors, |c.connectors|, size, hw);
      var d1 := d.(connectors := conns);
      if choice.Refused? || choice.mode.None? then Outcomes(d1, k, false)
      else
        var c' := CrtcWithScanout(c, k, o);
        var d2 := d1.(crtcs := d1.crtcs[j := c']);
        var k1 := KernelAfter(c, k, size, o);
        if !Good(o) then Outcomes(d2, k1, false)
        else Outcomes(d2, WithModeSet(k1, c'.id, c'.fb, c'.connectors, choice.mode.value), true)
  }

  /** A mode set uses a framebuffer of the requested size, the connectors of the CRTC, and the first mode of that name that the
      first plugged one of them has; every plugged one has such a mode. */
  ghost predicate CoherentSet(s: ModeSet, c: Crtc, conns: seq<Connector>, size: Size, hw: Hardware)
    requires Known(conns, hw)
  {
    && s.crtcId == c.id && s.fbSize == Some(size)
    && s.connectors == c.connectors && s.connectors != []
    && Matches(s.mode, ModeName(size.w, size.h), 0)
    && (forall id :: id in s.connectors && PluggedMember(conns, hw, id) ==> Supports(conns, hw, id, size))
    && (exists i :: FirstPlugged(conns, hw, s.connectors, i) &&
                    FirstMatch(hw.connectors[s.connectors[i]].modes, ModeName(size.w, size.h), 0, 0, s.mode))
  }

  /** Every plugged connector of the CRTC has the mode, and there is one. */
  ghost predicate Settable(c: Crtc, conns: seq<Connector>, size: Size, hw: Hardware)
    requires Known(conns, hw)
  {
    && (forall id :: id in c.connectors && PluggedMember(conns, hw, id) ==> Supports(conns, hw, id, size))
    && (exists id :: id in c.connectors && PluggedMember(conns, hw, id))
  }

  lemma CheckDecides(c: Crtc, conns: seq<Connector>, size: Size, hw: Hardware)
    requires Known(conns, hw)
    ensures var choice := Check(conns, c.connectors, |c.connectors|, size, hw).1;
      && (choice.Chosen? && choice.mode.Some? <==> Settable(c, conns, size, hw))
      && (choice.Chosen? && choice.mode.Some? ==>
            exists i :: FirstPlugged(conns, hw, c.connectors, i) && Supports(conns, hw, c.connectors[i], size) &&
                        choice.mode == Lookup(hw.connectors[c.connectors[i]], size))
  {
    var ids := c.connectors;
    CheckRefuses(conns, ids, |ids|, size, hw);
    var choice := Check(conns, ids, |ids|, size, hw).1;
    if choice.Chosen? {
      CheckChooses(conns, ids, |ids|, size, hw);
      if choice.mode.Some? {
        var i :| i < |ids| && FirstPlugged(conns, hw, ids, i) && Supports(conns, hw, ids[i], size) &&
                 choice.mode == Lookup(hw.connectors[ids[i]], size);
        assert ids[i] in ids && PluggedMember(conns, hw, ids[i]);
      }
    }
  }

  /** setActiveMode succeeds exactly when the mode is settable and both requests are granted; it then made one coherent
      mode set, and none otherwise. */
  lemma SetModeCoherent(d: Device, k: Resources, j: nat, size: Size, hw: Hardware, o: Outcome)
    requires j < |d.crtcs| && Known(d.connectors, hw) && Coherent(d.crtcs[j], k) && 0 < k.nextBo && 0 < k.nextFb
    requires (forall b :: b in k.bos ==> b < k.nextBo) && forall f :: f in k.fbs ==> f < k.nextFb
    ensures var r := SetMode(d, k, j, size, hw, o);
      && (r.ok <==> Settable(d.crtcs[j], d.connectors, size, hw) && Good(o))
      && (!r.ok ==> r.kernel.sets == k.sets)
      && (r.ok ==> |r.kernel.sets| == |k.sets| + 1 && r.kernel.sets[..|k.sets|] == k.sets &&
                   r.kernel.sets[|k.sets|].fb == r.device.crtcs[j].fb &&
                   CoherentSet(r.kernel.sets[|k.sets|], d.crtcs[j], d.connectors, size, hw))
  {
    CheckDecides(d.crtcs[j], d.connectors, size, hw);
    ScanoutStep(d.crtcs[j], k, size, o);
  }

  /** Kernel mode names are canonical: the name is the size. */
  predicate Canonical(hw: Hardware) {
    forall id :: id in hw.connectors ==>
      forall i :: 0 <= i < |hw.connectors[id].modes| ==>
        var m := hw.connectors[id].modes[i]; m.name == ModeName(m.hdisplay, m.vdisplay)
  }

  /** With canonical names the mode has exactly the requested dimensions. */
  lemma SetHasSize(s: ModeSet, c: Crtc, conns: seq<Connector>, size: Size, hw: Hardware)
    requires Known(conns, hw) && Canonical(hw) && CoherentSet(s, c, conns, size, hw)
    ensures s.mode.hdisplay == size.w && s.mode.vdisplay == size.h
  {
    var i :| FirstPlugged(conns, hw, s.connectors, i) &&
             FirstMatch(hw.connectors[s.connectors[i]].modes, ModeName(size.w, size.h), 0, 0, s.mode);
    var id := s.connectors[i];
    var k :| 0 <= k < |hw.connectors[id].modes| && hw.connectors[id].modes[k] == s.mode;
    ModeNameInjective(s.mode.hdisplay, s.mode.vdisplay, size.w, size.h);
  }

  // ----- changeMode -----

  /** The search for the connector of a display path; the counter is a uint8_t. */
  function PathCrtc(conns: seq<Connector>, hw: Hardware, path: nat, i: nat): (r: (seq<Connector>, nat))
    requires i <= |conns| && Known(conns, hw)
    ensures |r.0| == |conns| && forall m :: 0 <= m < |conns| ==> r.0[m].id == conns[m].id && r.0[m].crtcId == conns[m].crtcId
    decreases |conns| - i
  {
    if i == |conns| then (conns, 0)
    else
      var cs := Refresh(conns, hw, i);
      if Plugged(cs[i].info) && i % 256 == path then (cs, cs[i].crtcId)
      else PathCrtc(cs, hw, path, i + 1)
  }

  /** Connector `k` is the display of the path: plugged, and its position counts up to the path modulo 256. */
  predicate OnPath(conns: seq<Connector>, hw: Hardware, path: nat, k: nat)
    requires k < |conns| && Known(conns, hw)
  {
    var info := hw.connectors[conns[k].id];
    info.connected && |info.modes| > 0 && k % 256 == path
  }

  /** The connectors from `i` to before `n` were fetched again, the others not. */
  predicate Fetched(before: seq<Connector>, after: seq<Connector>, hw: Hardware, i: nat, n: nat)
    requires Known(before, hw)
  {
    |after| == |before| && forall m :: 0 <= m < |before| ==>
      after[m] == if i <= m < n then before[m].(info := hw.connectors[before[m].id]) else before[m]
  }

  /** The search fetches connectors up to the first one on the path and answers with its CRTC. */
  lemma {:induction false} PathFinds(conns: seq<Connector>, hw: Hardware, path: nat, i: nat, k: nat)
    requires i <= k < |conns| && Known(conns, hw) && OnPath(conns, hw, path, k)
    requires forall l :: i <= l < k ==> !OnPath(conns, hw, path, l)
    ensures var (cs, id) := PathCrtc(conns, hw, path, i); id == conns[k].crtcId && Fetched(conns, cs, hw, i, k + 1)
    decreases k - i
  {
    if i < k {
      assert !OnPath(conns, hw, path, i);
      var cs := Refresh(conns, hw, i);
      assert OnPath(cs, hw, path, k) && forall l :: i + 1 <= l < k ==> OnPath(cs, hw, path, l) == OnPath(conns, hw, path, l);
      PathFinds(cs, hw, path, i + 1, k);
    }
  }

  /** With no connector on the path it fetches all of them and answers 0. */
  lemma {:induction false} PathFails(conns: seq<Connector>, hw: Hardware, path: nat, i: nat)
    requires i <= |conns| && Known(conns, hw) && forall l :: i <= l < |conns| ==> !OnPath(conns, hw, path, l)
    ensures var (cs, id) := PathCrtc(conns, hw, path, i); id == 0 && Fetched(conns, cs, hw, i, |conns|)
    decreases |conns| - i
  {
    if i < |conns| {
      assert !OnPath(conns, hw, path, i);
      var cs := Refresh(conns, hw, i);
      assert forall l :: i + 1 <= l < |conns| ==> OnPath(cs, hw, path, l) == OnPath(conns, hw, path, l);
      PathFails(cs, hw, path, i + 1);
    }
  }

  /** Every connector holds what the kernel reports. */
  predicate UpToDate(conns: seq<Connector>, hw: Hardware) {
    forall i :: 0 <= i < |conns| ==> conns[i].id in hw.connectors && conns[i].info == hw.connectors[conns[i].id]
  }

  /** Connectors that are up to date stay as they are. */
  lemma {:induction false} CheckUpToDate(conns: seq<Connector>, ids: seq<nat>, n: nat, size: Size, hw: Hardware)
    requires n <= |ids| && UpToDate(conns, hw)
    ensures Check(conns, ids, n, size, hw).0 == conns
  {
    if n > 0 {
      CheckUpToDate(conns, ids, n - 1, size, hw);
      var i := ConnIndex(conns, ids[n - 1], 0);
      assert i < |conns| ==> Refresh(conns, hw, i) == conns;
    }
  }

  lemma {:induction false} PathUpToDate(conns: seq<Connector>, hw: Hardware, path: nat, i: nat)
    requires i <= |conns| && UpToDate(conns, hw)
    ensures PathCrtc(conns, hw, path, i).0 == conns
    decreases |conns| - i
  {
    if i < |conns| {
      assert Refresh(conns, hw, i) == conns;
      PathUpToDate(conns, hw, path, i + 1);
    }
  }

  /** A mode change on the CRTC of a display path; on success the CRTC's limit and the configured mode become the size. */
  datatype Change = Change(device: Device, kernel: Resources, configured: Size, done: bool)

  function ChangeMode(d: Device, k: Resources, configured: Size, size: Size, path: nat, hw: Hardware, o: Outcome): Change
    requires Known(d.connectors, hw)
  {
    var (conns, id) := PathCrtc(d.connectors, hw, path, 0);
    var d1 := d.(connectors := conns);
    var j := CrtcIndex(d.crtcs, id, 0);
    if j == |d.crtcs| then Change(d1, k, configured, false)
    else
      var r := SetMode(d1, k, j, size, hw, o);
      if !r.ok then Change(r.device, r.kernel, configured, false)
      else Change(r.device.(crtcs := r.device.crtcs[j := r.device.crtcs[j].(max := size)]), r.kernel, size, true)
  }
}
