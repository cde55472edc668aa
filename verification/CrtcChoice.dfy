/** Which CRTC a connector resolves to, and which one a plane mask names. */
module CrtcChoice {
  import opened Bytes
  import opened Drm

  /** Conversion of an unsigned id to int32_t. */
  function Int32(n: nat): int {
    if U32(n) < 0x8000_0000 then U32(n) else U32(n) - 0x1_0000_0000
  }

  /** `mask & (1 << j)` */
  predicate HasBit(mask: bv32, j: nat)
    requires j < 32
  {
    mask & (1 << j) != 0
  }

  /** The inner loop from CRTC `j` on, entered with the value `crtc`. */
  function Scan(mask: bv32, crtcs: seq<nat>, j: nat, crtc: int): int
    requires j <= |crtcs| <= 32
    decreases |crtcs| - j
  {
    if j == |crtcs| then crtc
    else if !HasBit(mask, j) then Scan(mask, crtcs, j + 1, crtc)
    else if Int32(crtcs[j]) >= 0 then Int32(crtcs[j])
    else Scan(mask, crtcs, j + 1, Int32(crtcs[j]))
  }

  /** The outer loop over the first `n` encoders of a connector; encoders the kernel does not return are skipped. */
  function Search(hw: Hardware, encoders: seq<nat>, n: nat): int
    requires n <= |encoders| && |hw.crtcs| <= 32
  {
    if n == 0 then 0
    else if encoders[n - 1] !in hw.encoders then Search(hw, encoders, n - 1)
    else Scan(hw.encoders[encoders[n - 1]].possibleCrtcs, hw.crtcs, 0, Search(hw, encoders, n - 1))
  }

  /** The CRTC id that a connector resolves to, 0 for none. */
  function CrtcFor(info: ConnectorInfo, hw: Hardware): nat
    requires |hw.crtcs| <= 32
  {
    if info.encoderId != 0 && info.encoderId in hw.encoders then U32(Int32(hw.encoders[info.encoderId].crtcId))
    else U32(Search(hw, info.encoders, |info.encoders|))
  }

  /** findCrtc of a connector. */
  method FindCrtc(info: ConnectorInfo, hw: Hardware) returns (id: nat)
    requires |hw.crtcs| <= 32
    ensures id == CrtcFor(info, hw)
  {
    var crtc := 0;
    if info.encoderId != 0 {
      if info.encoderId in hw.encoders {
        var enc := hw.encoders[info.encoderId];
        if enc.crtcId != 0 {
          crtc := Int32(enc.crtcId);
        }
        return U32(crtc);
      }
    }
    for i := 0 to |info.encoders|
      invariant crtc == Search(hw, info.encoders, i)
    {
      if info.encoders[i] !in hw.encoders {
        continue;
      }
      var enc := hw.encoders[info.encoders[i]];
      ghost var result := Scan(enc.possibleCrtcs, hw.crtcs, 0, crtc);
      var j, done := 0, false;
      while j < |hw.crtcs| && !done
        invariant 0 <= j <= |hw.crtcs|
        invariant if done then crtc == result else Scan(enc.possibleCrtcs, hw.crtcs, j, crtc) == result
      {
        if HasBit(enc.possibleCrtcs, j) {
          crtc := Int32(hw.crtcs[j]);
          done := crtc >= 0;
        }
        j := j + 1;
      }
    }
    return U32(crtc);
  }

  // ----- what the search finds -----

  /** The kernel's CRTC ids are positive and fit in 31 bits. */
  predicate GoodIds(hw: Hardware) {
    |hw.crtcs| <= 32 && forall j :: 0 <= j < |hw.crtcs| ==> 0 < hw.crtcs[j] < 0x8000_0000
  }

  /** Index of the first CRTC in the mask, from `j` on; the number of CRTCs when there is none. */
  function FirstIn(mask: bv32, n: nat, j: nat): (k: nat)
    requires j <= n <= 32
    ensures j <= k <= n
    ensures k < n ==> HasBit(mask, k)
    ensures forall i :: j <= i < k ==> !HasBit(mask, i)
    decreases n - j
  {
    if j == n || HasBit(mask, j) then j else FirstIn(mask, n, j + 1)
  }

  /** Encoder `i` exists and can drive some CRTC. */
  predicate Offers(hw: Hardware, encoders: seq<nat>, i: int)
    requires |hw.crtcs| <= 32
  {
    0 <= i < |encoders| && encoders[i] in hw.encoders &&
    FirstIn(hw.encoders[encoders[i]].possibleCrtcs, |hw.crtcs|, 0) < |hw.crtcs|
  }

  lemma {:induction false} ScanFinds(mask: bv32, crtcs: seq<nat>, j: nat, crtc: int)
    requires j <= |crtcs| <= 32 && forall i :: 0 <= i < |crtcs| ==> 0 < crtcs[i] < 0x8000_0000
    ensures var k := FirstIn(mask, |crtcs|, j);
      Scan(mask, crtcs, j, crtc) == if k < |crtcs| then crtcs[k] else crtc
    decreases |crtcs| - j
  {
    if j < |crtcs| {
      ScanFinds(mask, crtcs, j + 1, crtc);
    }
  }

  /** Of the first `n` encoders, `i` is the last that offers any CRTC. */
  ghost predicate LastOffer(hw: Hardware, encoders: seq<nat>, n: int, i: int)
    requires |hw.crtcs| <= 32
  {
    i < n && Offers(hw, encoders, i) && forall m :: i < m < n ==> !Offers(hw, encoders, m)
  }

  /** The first CRTC that encoder `i` can drive. */
  function FirstOffered(hw: Hardware, encoders: seq<nat>, i: int): nat
    requires |hw.crtcs| <= 32 && Offers(hw, encoders, i)
  {
    hw.crtcs[FirstIn(hw.encoders[encoders[i]].possibleCrtcs, |hw.crtcs|, 0)]
  }

  lemma SearchStep(hw: Hardware, encoders: seq<nat>, n: nat)
    requires n < |encoders| && GoodIds(hw)
    ensures Search(hw, encoders, n + 1) ==
      if Offers(hw, encoders, n) then FirstOffered(hw, encoders, n) else Search(hw, encoders, n)
  {
    if encoders[n] in hw.encoders {
      ScanFinds(hw.encoders[encoders[n]].possibleCrtcs, hw.crtcs, 0, Search(hw, encoders, n));
    }
  }

  /** The search answers with the first compatible CRTC of the last encoder that offers any. */
  lemma {:induction false} SearchFinds(hw: Hardware, encoders: seq<nat>, n: nat, i: nat)
    requires n <= |encoders| && GoodIds(hw) && LastOffer(hw, encoders, n, i)
    ensures Search(hw, encoders, n) == FirstOffered(hw, encoders, i)
  {
    SearchStep(hw, encoders, n - 1);
    if i < n - 1 {
      SearchFinds(hw, encoders, n - 1, i);
    }
  }

  /** It answers 0 exactly when no encoder offers any. */
  lemma {:induction false} SearchFails(hw: Hardware, encoders: seq<nat>, n: nat)
    requires n <= |encoders| && GoodIds(hw)
    ensures 0 <= Search(hw, encoders, n) < 0x8000_0000
    ensures Search(hw, encoders, n) == 0 <==> forall i :: 0 <= i < n ==> !Offers(hw, encoders, i)
  {
    if n > 0 {
      SearchFails(hw, encoders, n - 1);
      SearchStep(hw, encoders, n - 1);
    }
  }

  /** The connector has an encoder of its own. */
  predicate HasEncoder(info: ConnectorInfo, hw: Hardware) {
    info.encoderId != 0 && info.encoderId in hw.encoders
  }

  /** A connector with an encoder of its own gets that encoder's CRTC, even when that is none. */
  lemma CurrentCrtc(info: ConnectorInfo, hw: Hardware)
    requires |hw.crtcs| <= 32 && HasEncoder(info, hw) && hw.encoders[info.encoderId].crtcId < 0x8000_0000
    ensures CrtcFor(info, hw) == hw.encoders[info.encoderId].crtcId
  {
  }

  /** Any other connector gets the first compatible CRTC of its last encoder that offers one, or none. */
  lemma FallbackCrtc(info: ConnectorInfo, hw: Hardware, i: nat)
    requires GoodIds(hw) && !HasEncoder(info, hw)
    ensures LastOffer(hw, info.encoders, |info.encoders|, i) ==> CrtcFor(info, hw) == FirstOffered(hw, info.encoders, i)
    ensures CrtcFor(info, hw) == 0 <==> forall k :: 0 <= k < |info.encoders| ==> !Offers(hw, info.encoders, k)
  {
    SearchFails(hw, info.encoders, |info.encoders|);
    if LastOffer(hw, info.encoders, |info.encoders|, i) {
      SearchFinds(hw, info.encoders, |info.encoders|, i);
    }
  }

  // ----- masks of planes -----

  /** `ffs(mask) - 1` converted to uint32_t: the lowest bit, or 0xffffffff for an empty mask. */
  function LowestBit(mask: bv32): (k: nat)
    ensures k < 32 ==> HasBit(mask, k)
    ensures forall i :: 0 <= i < 32 && i < k ==> !HasBit(mask, i)
    ensures k < 32 || k == 0xffff_ffff
  {
    var k := FirstIn(mask, 32, 0);
    if k < 32 then k else 0xffff_ffff
  }

  /** The mask names exactly one CRTC. */
  predicate OneBit(mask: bv32, j: nat) {
    j < 32 && HasBit(mask, j) && forall i :: 0 <= i < 32 && i != j ==> !HasBit(mask, i)
  }

  lemma OneBitIsLowest(mask: bv32, j: nat, i: nat)
    requires OneBit(mask, j) && i < 32 && HasBit(mask, i)
    ensures LowestBit(mask) == j && i == j
  {
  }
}
