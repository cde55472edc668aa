/** Replacing the scanout buffer of a CRTC, and what that does to the kernel's buffers over whole runs. */
module Scanout {
  import opened Formats
  import opened Drm
  import opened DeviceModel

  /** The outcomes of the two requests that can fail. */
  datatype Outcome = Outcome(createOk: bool, addOk: bool)

  predicate Good(o: Outcome) {
    o.createOk && o.addOk
  }

  /** The old buffer and framebuffer of a CRTC are given back, whether or not the rest succeeds. */
  function Released(c: Crtc, k: Resources): Resources {
    if c.bo.Some? && c.fb != 0 then WithoutBo(WithoutFb(k, c.fb), c.bo.value) else k
  }

  /** The kernel after createScanoutFb. */
  function KernelAfter(c: Crtc, k: Resources, size: Size, o: Outcome): Resources {
    var k1 := Released(c, k);
    if !o.createOk then k1
    else
      var k2 := WithBo(k1, size);
      if !o.addOk then WithoutBo(k2, k1.nextBo) else WithFb(k2, size, k1.nextBo)
  }

  /** The CRTC after createScanoutFb: a failure leaves the old handles in place. */
  function CrtcWithScanout(c: Crtc, k: Resources, o: Outcome): Crtc {
    if Good(o) then c.(fb := k.nextFb, bo := Some(k.nextBo)) else c
  }

  /** The CRTC holds a live buffer under a live framebuffer. */
  predicate Live(c: Crtc, k: Resources) {
    c.bo.Some? && c.bo.value in k.bos && c.fb in k.fbs && k.fbs[c.fb].bo == c.bo.value
  }

  /** The CRTC has handles, and the kernel has neither object any more. */
  predicate Stale(c: Crtc, k: Resources) {
    c.bo.Some? && c.bo.value !in k.bos && c.fb !in k.fbs
  }

  /** A CRTC has both handles or neither; they were issued by this kernel, and are live together or dead together. */
  predicate Coherent(c: Crtc, k: Resources) {
    && (c.bo.Some? <==> c.fb != 0)
    && (c.bo.Some? ==> c.bo.value < k.nextBo && c.fb < k.nextFb && (Live(c, k) || Stale(c, k)))
  }

  ghost predicate HeldBos(crtcs: seq<Crtc>, k: Resources) {
    forall b :: b in k.bos ==> b < k.nextBo && exists j :: 0 <= j < |crtcs| && crtcs[j].bo == Some(b)
  }

  ghost predicate HeldFbs(crtcs: seq<Crtc>, k: Resources) {
    forall f :: f in k.fbs ==> 0 < f < k.nextFb && exists j :: 0 <= j < |crtcs| && crtcs[j].fb == f
  }

  ghost predicate DistinctHandles(crtcs: seq<Crtc>) {
    forall i, j :: 0 <= i < j < |crtcs| && crtcs[i].bo.Some? && crtcs[j].bo.Some? ==>
      crtcs[i].bo != crtcs[j].bo && crtcs[i].fb != crtcs[j].fb
  }

  /** Every live buffer and framebuffer is held by a CRTC, and no two CRTCs hold the same. */
  ghost predicate Conserved(crtcs: seq<Crtc>, k: Resources) {
    && 0 < k.nextBo && 0 < k.nextFb
    && (forall j :: 0 <= j < |crtcs| ==> Coherent(crtcs[j], k))
    && DistinctHandles(crtcs) && HeldBos(crtcs, k) && HeldFbs(crtcs, k)
  }

  /** What one call does to the liveness of its CRTC and to stray requests. */
  lemma ScanoutStep(c: Crtc, k: Resources, size: Size, o: Outcome)
    requires Coherent(c, k) && 0 < k.nextBo && 0 < k.nextFb
    requires forall b :: b in k.bos ==> b < k.nextBo
    requires forall f :: f in k.fbs ==> f < k.nextFb
    ensures var c', k' := CrtcWithScanout(c, k, o), KernelAfter(c, k, size, o);
      && Coherent(c', k')
      && (Good(o) ==> Live(c', k') && k'.bos[c'.bo.value] == size && k'.fbs[c'.fb].size == size)
      && (!Good(o) ==> !Live(c', k') && (Stale(c', k') <==> c.bo.Some?))
      && k'.strays == k.strays + (if Stale(c, k) then 2 else 0)
      && k'.sets == k.sets
  {
  }

  /** The handles of the other CRTCs and the objects behind them are not touched. */
  lemma OthersKept(c: Crtc, k: Resources, size: Size, o: Outcome, other: Crtc)
    requires Coherent(c, k) && Coherent(other, k)
    requires c.bo.Some? && other.bo.Some? ==> c.bo != other.bo && c.fb != other.fb
    ensures var k' := KernelAfter(c, k, size, o);
      Coherent(other, k') && Live(other, k') == Live(other, k) && Stale(other, k') == Stale(other, k)
  {
  }

  /** Exactly the released objects leave the live sets, and exactly the new ones enter. */
  lemma LiveSets(c: Crtc, k: Resources, size: Size, o: Outcome)
    requires Coherent(c, k) && k.nextBo !in k.bos && k.nextFb !in k.fbs
    ensures var k' := KernelAfter(c, k, size, o);
      && k'.bos.Keys == k.bos.Keys - (if c.bo.Some? then {c.bo.value} else {}) + (if Good(o) then {k.nextBo} else {})
      && k'.fbs.Keys == k.fbs.Keys - (if c.bo.Some? then {c.fb} else {}) + (if Good(o) then {k.nextFb} else {})
      && k.nextBo <= k'.nextBo && k.nextFb <= k'.nextFb
      && (Good(o) ==> k.nextBo < k'.nextBo && k.nextFb < k'.nextFb)
  {
  }

  lemma CoherentStep(crtcs: seq<Crtc>, k: Resources, j: nat, size: Size, o: Outcome, after: seq<Crtc>, k': Resources)
    requires Conserved(crtcs, k) && j < |crtcs| && k' == KernelAfter(crtcs[j], k, size, o)
    requires after == crtcs[j := CrtcWithScanout(crtcs[j], k, o)]
    ensures forall i :: 0 <= i < |after| ==> Coherent(after[i], k')
    ensures DistinctHandles(after)
  {
    ScanoutStep(crtcs[j], k, size, o);
    forall i | 0 <= i < |after|
      ensures Coherent(after[i], k')
    {
      if i != j {
        OthersKept(crtcs[j], k, size, o, crtcs[i]);
      }
    }
  }

  lemma HeldBosStep(crtcs: seq<Crtc>, k: Resources, j: nat, size: Size, o: Outcome, after: seq<Crtc>, k': Resources)
    requires Conserved(crtcs, k) && j < |crtcs| && k' == KernelAfter(crtcs[j], k, size, o)
    requires after == crtcs[j := CrtcWithScanout(crtcs[j], k, o)]
    ensures HeldBos(after, k')
  {
    LiveSets(crtcs[j], k, size, o);
    forall b | b in k'.bos
      ensures b < k'.nextBo && exists i :: 0 <= i < |after| && after[i].bo == Some(b)
    {
      if b in k.bos {
        var i :| 0 <= i < |crtcs| && crtcs[i].bo == Some(b);
        assert i != j && after[i] == crtcs[i];
      } else {
        assert after[j].bo == Some(b);
      }
    }
  }

  lemma HeldFbsStep(crtcs: seq<Crtc>, k: Resources, j: nat, size: Size, o: Outcome, after: seq<Crtc>, k': Resources)
    requires Conserved(crtcs, k) && j < |crtcs| && k' == KernelAfter(crtcs[j], k, size, o)
    requires after == crtcs[j := CrtcWithScanout(crtcs[j], k, o)]
    ensures HeldFbs(after, k')
  {
    LiveSets(crtcs[j], k, size, o);
    forall f | f in k'.fbs
      ensures 0 < f < k'.nextFb && exists i :: 0 <= i < |after| && after[i].fb == f
    {
      if f in k.fbs {
        var i :| 0 <= i < |crtcs| && crtcs[i].fb == f;
        assert after[i].fb == f;
      } else {
        assert after[j].fb == f;
      }
    }
  }

  /** Every step keeps buffers and framebuffers conserved, failures included. */
  lemma ConservedStep(crtcs: seq<Crtc>, k: Resources, j: nat, size: Size, o: Outcome)
    requires Conserved(crtcs, k) && j < |crtcs|
    ensures Conserved(crtcs[j := CrtcWithScanout(crtcs[j], k, o)], KernelAfter(crtcs[j], k, size, o))
  {
    var after, k' := crtcs[j := CrtcWithScanout(crtcs[j], k, o)], KernelAfter(crtcs[j], k, size, o);
    CoherentStep(crtcs, k, j, size, o, after, k');
    HeldBosStep(crtcs, k, j, size, o, after, k');
    HeldFbsStep(crtcs, k, j, size, o, after, k');
  }

  /** Only the handles of the CRTCs and the live sets of the kernel matter for conservation. */
  lemma HandlesDecide(crtcs: seq<Crtc>, k: Resources, crtcs': seq<Crtc>, k': Resources)
    requires Conserved(crtcs, k) && |crtcs'| == |crtcs|
    requires forall j :: 0 <= j < |crtcs| ==> crtcs'[j].bo == crtcs[j].bo && crtcs'[j].fb == crtcs[j].fb
    requires k' == k.(sets := k'.sets)
    ensures Conserved(crtcs', k')
  {
    forall j | 0 <= j < |crtcs'|
      ensures Coherent(crtcs'[j], k')
    {
      CoherentSame(crtcs[j], k, crtcs'[j], k');
    }
    HeldBosSame(crtcs, k, crtcs', k');
    HeldFbsSame(crtcs, k, crtcs', k');
  }

  lemma CoherentSame(c: Crtc, k: Resources, c': Crtc, k': Resources)
    requires Coherent(c, k) && c'.bo == c.bo && c'.fb == c.fb && k' == k.(sets := k'.sets)
    ensures Coherent(c', k')
  {
  }

  lemma HeldBosSame(crtcs: seq<Crtc>, k: Resources, crtcs': seq<Crtc>, k': Resources)
    requires HeldBos(crtcs, k) && |crtcs'| == |crtcs| && k' == k.(sets := k'.sets)
    requires forall j :: 0 <= j < |crtcs| ==> crtcs'[j].bo == crtcs[j].bo
    ensures HeldBos(crtcs', k')
  {
    forall b | b in k'.bos
      ensures b < k'.nextBo && exists j :: 0 <= j < |crtcs'| && crtcs'[j].bo == Some(b)
    {
      var j :| 0 <= j < |crtcs| && crtcs[j].bo == Some(b);
      assert crtcs'[j].bo == Some(b);
    }
  }

  lemma HeldFbsSame(crtcs: seq<Crtc>, k: Resources, crtcs': seq<Crtc>, k': Resources)
    requires HeldFbs(crtcs, k) && |crtcs'| == |crtcs| && k' == k.(sets := k'.sets)
    requires forall j :: 0 <= j < |crtcs| ==> crtcs'[j].fb == crtcs[j].fb
    ensures HeldFbs(crtcs', k')
  {
    forall f | f in k'.fbs
      ensures 0 < f < k'.nextFb && exists j :: 0 <= j < |crtcs'| && crtcs'[j].fb == f
    {
      var j :| 0 <= j < |crtcs| && crtcs[j].fb == f;
      assert crtcs'[j].fb == f;
    }
  }

  // ----- over whole runs -----

  /** One call of createScanoutFb, on CRTC `crtc`. */
  datatype Call = Call(crtc: nat, size: Size, outcome: Outcome)

  ghost predicate ValidRun(crtcs: seq<Crtc>, calls: seq<Call>) {
    forall i :: 0 <= i < |calls| ==> calls[i].crtc < |crtcs|
  }

  /** The CRTCs and the kernel after the first `n` calls. */
  ghost function Run(crtcs: seq<Crtc>, k: Resources, calls: seq<Call>, n: nat): (s: (seq<Crtc>, Resources))
    requires ValidRun(crtcs, calls) && n <= |calls|
    ensures |s.0| == |crtcs|
  {
    if n == 0 then (crtcs, k)
    else
      var (cs, r) := Run(crtcs, k, calls, n - 1);
      var call := calls[n - 1];
      (cs[call.crtc := CrtcWithScanout(cs[call.crtc], r, call.outcome)], KernelAfter(cs[call.crtc], r, call.size, call.outcome))
  }

  /** CRTCs that have not been given a buffer yet, and a kernel with none. */
  ghost predicate Fresh(crtcs: seq<Crtc>, k: Resources) {
    && (forall j :: 0 <= j < |crtcs| ==> crtcs[j].bo.None? && crtcs[j].fb == 0)
    && 0 < k.nextBo && 0 < k.nextFb && k.bos == map[] && k.fbs == map[] && k.strays == 0
  }

  lemma {:induction false} RunConserves(crtcs: seq<Crtc>, k: Resources, calls: seq<Call>, n: nat)
    requires Fresh(crtcs, k) && ValidRun(crtcs, calls) && n <= |calls|
    ensures Conserved(Run(crtcs, k, calls, n).0, Run(crtcs, k, calls, n).1)
  {
    if n > 0 {
      RunConserves(crtcs, k, calls, n - 1);
      var (cs, r) := Run(crtcs, k, calls, n - 1);
      ConservedStep(cs, r, calls[n - 1].crtc, calls[n - 1].size, calls[n - 1].outcome);
    }
  }

  /** The CRTCs hold at least as many buffers as are live. */
  lemma {:induction false} LiveAtMostCrtcs(crtcs: seq<Crtc>, bos: set<nat>)
    requires forall b :: b in bos ==> exists j :: 0 <= j < |crtcs| && crtcs[j].bo == Some(b)
    ensures |bos| <= |crtcs|
  {
    if |crtcs| == 0 {
      assert bos == {};
    } else {
      var last := crtcs[|crtcs| - 1].bo;
      var rest := if last.Some? then bos - {last.value} else bos;
      var front := crtcs[..|crtcs| - 1];
      forall b | b in rest
        ensures exists j :: 0 <= j < |front| && front[j].bo == Some(b)
      {
        var j :| 0 <= j < |crtcs| && crtcs[j].bo == Some(b);
        assert front[j].bo == Some(b);
      }
      LiveAtMostCrtcs(front, rest);
    }
  }

  /** On every run, with any failures, live buffers never exceed the number of CRTCs. */
  lemma NoLeak(crtcs: seq<Crtc>, k: Resources, calls: seq<Call>, n: nat)
    requires Fresh(crtcs, k) && ValidRun(crtcs, calls) && n <= |calls|
    ensures |Run(crtcs, k, calls, n).1.bos| <= |crtcs|
  {
    RunConserves(crtcs, k, calls, n);
    var (cs, r) := Run(crtcs, k, calls, n);
    LiveAtMostCrtcs(cs, r.bos.Keys);
    assert |r.bos| == |r.bos.Keys|;
  }

  // ----- when a request names a dead handle -----

  /** One of the first `n` calls on CRTC `j` succeeded. */
  ghost predicate EverGood(calls: seq<Call>, j: nat, n: nat)
    requires n <= |calls|
  {
    exists i :: 0 <= i < n && calls[i].crtc == j && Good(calls[i].outcome)
  }

  /** The last of the first `n` calls on CRTC `j` failed. */
  ghost predicate LastFailed(calls: seq<Call>, j: nat, n: nat)
    requires n <= |calls|
  {
    exists i :: 0 <= i < n && calls[i].crtc == j && !Good(calls[i].outcome) && forall m :: i < m < n ==> calls[m].crtc != j
  }

  /** A CRTC is stale exactly when it had a buffer once and its last call failed. */
  lemma {:induction false} StaleExactly(crtcs: seq<Crtc>, k: Resources, calls: seq<Call>, n: nat, j: nat)
    requires Fresh(crtcs, k) && ValidRun(crtcs, calls) && n <= |calls| && j < |crtcs|
    ensures var (cs, r) := Run(crtcs, k, calls, n);
      && (cs[j].bo.Some? <==> EverGood(calls, j, n))
      && (Stale(cs[j], r) <==> EverGood(calls, j, n) && LastFailed(calls, j, n))
  {
    if n > 0 {
      StaleExactly(crtcs, k, calls, n - 1, j);
      RunConserves(crtcs, k, calls, n - 1);
      var (cs, r) := Run(crtcs, k, calls, n - 1);
      var call := calls[n - 1];
      if call.crtc == j {
        ScanoutStep(cs[j], r, call.size, call.outcome);
        assert Good(call.outcome) ==> calls[n - 1].crtc == j;
      } else {
        OthersKept(cs[call.crtc], r, call.size, call.outcome, cs[j]);
      }
      StaleCondition(calls, j, n);
    }
  }

  /** How the condition evolves with one more call. */
  lemma StaleCondition(calls: seq<Call>, j: nat, n: nat)
    requires 0 < n <= |calls|
    ensures EverGood(calls, j, n) <==> EverGood(calls, j, n - 1) || (calls[n - 1].crtc == j && Good(calls[n - 1].outcome))
    ensures LastFailed(calls, j, n) <==>
      if calls[n - 1].crtc == j then !Good(calls[n - 1].outcome) else LastFailed(calls, j, n - 1)
  {
    if LastFailed(calls, j, n - 1) && calls[n - 1].crtc != j {
      var i :| 0 <= i < n - 1 && calls[i].crtc == j && !Good(calls[i].outcome) && forall m :: i < m < n - 1 ==> calls[m].crtc != j;
      assert forall m :: i < m < n ==> calls[m].crtc != j;
    }
  }

  /** Call `i` finds its CRTC with handles that an earlier failure left behind. */
  ghost predicate CallsStale(calls: seq<Call>, i: nat)
    requires i < |calls|
  {
    EverGood(calls, calls[i].crtc, i) && LastFailed(calls, calls[i].crtc, i)
  }

  ghost predicate NoStaleCall(calls: seq<Call>, n: nat)
    requires n <= |calls|
  {
    forall i :: 0 <= i < n ==> !CallsStale(calls, i)
  }

  lemma StrayStep(crtcs: seq<Crtc>, k: Resources, calls: seq<Call>, n: nat)
    requires Fresh(crtcs, k) && ValidRun(crtcs, calls) && n < |calls|
    ensures Run(crtcs, k, calls, n + 1).1.strays == Run(crtcs, k, calls, n).1.strays + (if CallsStale(calls, n) then 2 else 0)
  {
    var j := calls[n].crtc;
    var (cs, r) := Run(crtcs, k, calls, n);
    RunConserves(crtcs, k, calls, n);
    StaleExactly(crtcs, k, calls, n, j);
    ScanoutStep(cs[j], r, calls[n].size, calls[n].outcome);
  }

  /** A buffer or framebuffer is destroyed twice exactly when a CRTC is used again after a call on it failed
      that was preceded by a successful one; otherwise no request is stray. */
  lemma {:induction false} StrayExactly(crtcs: seq<Crtc>, k: Resources, calls: seq<Call>, n: nat)
    requires Fresh(crtcs, k) && ValidRun(crtcs, calls) && n <= |calls|
    ensures Run(crtcs, k, calls, n).1.strays == 0 <==> NoStaleCall(calls, n)
  {
    if n > 0 {
      StrayExactly(crtcs, k, calls, n - 1);
      StrayStep(crtcs, k, calls, n - 1);
      assert NoStaleCall(calls, n) <==> NoStaleCall(calls, n - 1) && !CallsStale(calls, n - 1);
    }
  }

  /** While every request succeeds, the live buffers and framebuffers are exactly those the CRTCs hold. */
  lemma {:induction false} ExactlyHeld(crtcs: seq<Crtc>, k: Resources, calls: seq<Call>, n: nat)
    requires Fresh(crtcs, k) && ValidRun(crtcs, calls) && n <= |calls|
    requires forall i :: 0 <= i < n ==> Good(calls[i].outcome)
    ensures var (cs, r) := Run(crtcs, k, calls, n);
      && r.strays == 0
      && (forall b :: b in r.bos <==> exists j :: 0 <= j < |cs| && cs[j].bo == Some(b))
      && (forall f :: f in r.fbs <==> f != 0 && exists j :: 0 <= j < |cs| && cs[j].fb == f)
  {
    RunConserves(crtcs, k, calls, n);
    StrayExactly(crtcs, k, calls, n);
    var (cs, r) := Run(crtcs, k, calls, n);
    forall j | 0 <= j < |cs|
      ensures !Stale(cs[j], r)
    {
      StaleExactly(crtcs, k, calls, n, j);
    }
  }

  /** Success, failure, success on one CRTC: the third call names a framebuffer and a buffer that are gone. */
  lemma RetryStrays(c: Crtc, size: Size)
    requires c.bo.None? && c.fb == 0
    ensures var calls := [Call(0, size, Outcome(true, true)), Call(0, size, Outcome(false, true)), Call(0, size, Outcome(true, true))];
      Run([c], EMPTY, calls, 3).1.strays == 2
  {
    var calls := [Call(0, size, Outcome(true, true)), Call(0, size, Outcome(false, true)), Call(0, size, Outcome(true, true))];
    assert Fresh([c], EMPTY);
    StrayStep([c], EMPTY, calls, 0);
    StrayStep([c], EMPTY, calls, 1);
    StrayStep([c], EMPTY, calls, 2);
    assert !EverGood(calls, 0, 0);
    assert Good(calls[0].outcome) && EverGood(calls, 0, 1) && EverGood(calls, 0, 2);
    assert !LastFailed(calls, 0, 1) && LastFailed(calls, 0, 2);
  }
}
