/** DrmConnector and DrmCrtc: the objects behind the values of the device model. */
module DrmObjects {
  import opened Formats
  import opened Drm
  import opened DeviceModel
  import opened Scanout
  import opened ModeSetting

  class DrmConnector {
    const id: nat
    var crtcId: nat
    var info: ConnectorInfo

    constructor (id: nat, info: ConnectorInfo)
      ensures Value() == Connector(id, 0, info)
    {
      this.id := id;
      this.crtcId := 0;
      this.info := info;
    }

    /** The connector as a value of the device model. */
    function Value(): Connector
      reads this
    {
      Connector(id, crtcId, info)
    }

    /** isPlugged fetches the connector again and looks at the answer. */
    method IsPlugged(hw: Hardware) returns (plugged: bool)
      requires id in hw.connectors
      modifies this`info
      ensures Value() == old(Value()).(info := hw.connectors[id])
      ensures plugged == Plugged(info) && (plugged <==> info.connected && |info.modes| > 0)
    {
      info := hw.connectors[id];
      plugged := info.connected && |info.modes| != 0;
    }

    method SetCrtcId(crtcId: nat)
      modifies this`crtcId
      ensures Value() == old(Value()).(crtcId := crtcId)
    {
      this.crtcId := crtcId;
    }

    /** The last and the first mode, when the connector is plugged. */
    method GetModeRange(hw: Hardware) returns (range: Option<(Mode, Mode)>)
      requires id in hw.connectors
      modifies this`info
      ensures Value() == old(Value()).(info := hw.connectors[id])
      ensures range == if Plugged(info) then Some((info.modes[|info.modes| - 1], info.modes[0])) else None
    {
      var plugged := IsPlugged(hw);
      if !plugged {
        return None;
      }
      return Some((info.modes[|info.modes| - 1], info.modes[0]));
    }

    /** First mode with the name and, when given, the refresh rate. */
    method GetMode(name: string, vRefresh: nat) returns (mode: Option<Mode>)
      ensures mode == FindMode(info.modes, name, vRefresh, 0)
      ensures mode.Some? ==> FirstMatch(info.modes, name, vRefresh, 0, mode.value)
      ensures mode.None? ==> forall i :: 0 <= i < |info.modes| ==> !Matches(info.modes[i], name, vRefresh)
    {
      for i := 0 to |info.modes|
        invariant FindMode(info.modes, name, vRefresh, 0) == FindMode(info.modes, name, vRefresh, i)
      {
        if name == info.modes[i].name {
          if vRefresh == 0 || info.modes[i].vrefresh == vRefresh {
            return Some(info.modes[i]);
          }
        }
      }
      return None;
    }

    method IsModeSupported(name: string, vRefresh: nat) returns (supported: bool)
      ensures supported <==> exists i :: 0 <= i < |info.modes| && Matches(info.modes[i], name, vRefresh)
      ensures supported <==> FindMode(info.modes, name, vRefresh, 0).Some?
    {
      for i := 0 to |info.modes|
        invariant FindMode(info.modes, name, vRefresh, 0) == FindMode(info.modes, name, vRefresh, i)
        invariant forall k :: 0 <= k < i ==> !Matches(info.modes[k], name, vRefresh)
      {
        if name == info.modes[i].name {
          if vRefresh == 0 || info.modes[i].vrefresh == vRefresh {
            assert Matches(info.modes[i], name, vRefresh);
            return true;
          }
        }
      }
      return false;
    }

    /** The sizes of all modes, in the kernel's order. */
    method GetSupportedModes() returns (sizes: seq<Size>)
      ensures |sizes| == |info.modes|
      ensures forall i :: 0 <= i < |sizes| ==> sizes[i] == Size(info.modes[i].hdisplay, info.modes[i].vdisplay)
    {
      sizes := [];
      for j := 0 to |info.modes|
        invariant |sizes| == j
        invariant forall i :: 0 <= i < j ==> sizes[i] == Size(info.modes[i].hdisplay, info.modes[i].vdisplay)
      {
        sizes := sizes + [Size(info.modes[j].hdisplay, info.modes[j].vdisplay)];
      }
    }
  }

  class DrmCrtc {
    const id: nat
    const index: nat
    var connectors: seq<nat>
    var fb: nat
    var bo: Option<nat>
    var max: Size
    var min: Size

    constructor (id: nat, index: nat)
      ensures Value() == Crtc(id, index, [], 0, None, Size(0, 0), Size(0, 0))
    {
      this.id := id;
      this.index := index;
      connectors := [];
      fb := 0;
      bo := None;
      max := Size(0, 0);
      min := Size(0, 0);
    }

    /** The CRTC as a value of the device model. */
    function Value(): Crtc
      reads this
    {
      Crtc(id, index, connectors, fb, bo, max, min)
    }

    /** createScanoutFb: gives the old objects back, then makes new ones; a failure leaves the old handles in place. */
    method CreateScanoutFb(card: Card, size: Size, o: Outcome) returns (failed: bool)
      modifies this`fb, this`bo, card
      ensures Value() == CrtcWithScanout(old(Value()), old(card.res), o)
      ensures card.res == KernelAfter(old(Value()), old(card.res), size, o)
      ensures failed <==> !Good(o)
    {
      if bo.Some? && fb != 0 {
        card.RmFb(fb);
        card.DestroyDumb(bo.value);
      }
      assert card.res == Released(old(Value()), old(card.res));
      var created := card.CreateDumb(size, o.createOk);
      if created.None? {
        return true;
      }
      var fbId := card.AddFb(size, created.value, o.addOk);
      if fbId.None? {
        card.DestroyDumb(created.value);
        return true;
      }
      fb := fbId.value;
      bo := created;
      return false;
    }

    /** Take over a connector: the set is cleared first, and the limits come from the connector's modes. */
    method BindConnector(connId: nat, info: ConnectorInfo, conf: Size)
      requires Plugged(info)
      modifies this`connectors, this`max, this`min
      ensures Value() == Bind(old(Value()), connId, info, conf)
      ensures connectors == [connId]
      ensures var first, last := info.modes[0], info.modes[|info.modes| - 1];
        && (first.hdisplay == 0 || first.vdisplay == 0 || (first.hdisplay >= conf.w && first.vdisplay >= conf.h) ==> max == conf)
        && (first.hdisplay > 0 && first.vdisplay > 0 && !(first.hdisplay >= conf.w && first.vdisplay >= conf.h) ==>
              max == Size(first.hdisplay, first.vdisplay))
        && min == Size(last.hdisplay, last.vdisplay)
    {
      var first, last := info.modes[0], info.modes[|info.modes| - 1];
      if |connectors| != 0 {
        connectors := [];
      }
      connectors := connectors + [connId];
      if (first.hdisplay < conf.w || first.vdisplay < conf.h) && first.hdisplay != 0 && first.vdisplay != 0 {
        max := Size(first.hdisplay, first.vdisplay);
      } else {
        max := conf;
      }
      min := Size(last.hdisplay, last.vdisplay);
    }
  }
}
