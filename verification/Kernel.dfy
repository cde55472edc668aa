/** The DRM kernel side: what the hardware reports, and the buffers, framebuffers and mode sets it holds. */
module Drm {
  import opened Formats

  datatype Size = Size(w: nat, h: nat)

  // ----- what the ioctls report -----

  datatype Mode = Mode(name: string, hdisplay: nat, vdisplay: nat, vrefresh: nat)
  datatype ConnectorInfo = ConnectorInfo(connected: bool, encoderId: nat, encoders: seq<nat>, modes: seq<Mode>)
  datatype EncoderInfo = EncoderInfo(crtcId: nat, possibleCrtcs: bv32)

  /** One answer of the kernel to every query; it does not change during one pass over the device. */
  datatype Hardware = Hardware(connectors: map<nat, ConnectorInfo>, encoders: map<nat, EncoderInfo>, crtcs: seq<nat>)

  predicate Plugged(info: ConnectorInfo) {
    info.connected && |info.modes| != 0
  }

  // ----- what the ioctls change -----

  datatype Framebuffer = Framebuffer(size: Size, bo: nat)

  /** One drmModeSetCrtc call. */
  datatype ModeSet = ModeSet(crtcId: nat, fb: nat, fbSize: Option<Size>, connectors: seq<nat>, mode: Mode)

  /** Live dumb buffers and framebuffers by handle; handles start at 1 and are never reused.
      `strays` counts the requests that named a handle that was not live. */
  datatype Resources = Resources(nextBo: nat, nextFb: nat, bos: map<nat, Size>, fbs: map<nat, Framebuffer>,
                                 strays: nat, sets: seq<ModeSet>)

  const EMPTY := Resources(1, 1, map[], map[], 0, [])

  function WithBo(k: Resources, size: Size): Resources {
    k.(nextBo := k.nextBo + 1, bos := k.bos[k.nextBo := size])
  }

  function WithoutBo(k: Resources, bo: nat): Resources {
    if bo in k.bos then k.(bos := k.bos - {bo}) else k.(strays := k.strays + 1)
  }

  function WithFb(k: Resources, size: Size, bo: nat): Resources {
    k.(nextFb := k.nextFb + 1, fbs := k.fbs[k.nextFb := Framebuffer(size, bo)])
  }

  function WithoutFb(k: Resources, fb: nat): Resources {
    if fb in k.fbs then k.(fbs := k.fbs - {fb}) else k.(strays := k.strays + 1)
  }

  function WithModeSet(k: Resources, crtcId: nat, fb: nat, connectors: seq<nat>, mode: Mode): Resources {
    var size := if fb in k.fbs then Some(k.fbs[fb].size) else None;
    k.(sets := k.sets + [ModeSet(crtcId, fb, size, connectors, mode)])
  }

  /** The file descriptor of the card. */
  class Card {
    var res: Resources

    constructor ()
      ensures res == EMPTY
    {
      res := EMPTY;
    }

    /** DRM_IOCTL_MODE_CREATE_DUMB, as bo_create issues it for XRGB8888; `ok` is its outcome. */
    method CreateDumb(size: Size, ok: bool) returns (bo: Option<nat>)
      modifies this
      ensures bo == if ok then Some(old(res).nextBo) else None
      ensures res == if ok then WithBo(old(res), size) else old(res)
    {
      if !ok {
        return None;
      }
      bo := Some(res.nextBo);
      res := res.(nextBo := res.nextBo + 1, bos := res.bos[res.nextBo := size]);
    }

    /** bo_destroy */
    method DestroyDumb(bo: nat)
      modifies this
      ensures res == WithoutBo(old(res), bo)
    {
      if bo in res.bos {
        res := res.(bos := res.bos - {bo});
      } else {
        res := res.(strays := res.strays + 1);
      }
    }

    /** drmModeAddFB2; `ok` is its outcome. */
    method AddFb(size: Size, bo: nat, ok: bool) returns (fb: Option<nat>)
      modifies this
      ensures fb == if ok then Some(old(res).nextFb) else None
      ensures res == if ok then WithFb(old(res), size, bo) else old(res)
    {
      if !ok {
        return None;
      }
      fb := Some(res.nextFb);
      res := res.(nextFb := res.nextFb + 1, fbs := res.fbs[res.nextFb := Framebuffer(size, bo)]);
    }

    /** drmModeRmFB */
    method RmFb(fb: nat)
      modifies this
      ensures res == WithoutFb(old(res), fb)
    {
      if fb in res.fbs {
        res := res.(fbs := res.fbs - {fb});
      } else {
        res := res.(strays := res.strays + 1);
      }
    }

    /** drmModeSetCrtc; its result is only logged by the caller. */
    method SetCrtc(crtcId: nat, fb: nat, connectors: seq<nat>, mode: Mode)
      modifies this
      ensures res == WithModeSet(old(res), crtcId, fb, connectors, mode)
    {
      var size := if fb in res.fbs then Some(res.fbs[fb].size) else None;
      res := res.(sets := res.sets + [ModeSet(crtcId, fb, size, connectors, mode)]);
    }
  }
}
