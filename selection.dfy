/**
 * Event-level decisions of the combinatorial analysis (src/Combinatorics.cc,
 * include/Combinatorics.h): the generator-level nano event, the diffractive
 * mass cut-off, the noisy SPD chip list, the re-emulated online trigger and
 * the beam-gas and timing vetoes.
 */
module Selection {
  import Bits
  import VecOper

  /** Nano event: observed and generator-level detector indices, process
      class, weight and the squared masses of the two diffractive systems. */
  datatype Evec = Evec(c: nat, cGen: nat, proc: nat, weight: real, m2L: real, m2R: real)

  /** The defaults of a fresh nano event: sentinel indices, unit weight and
      masses of -1. */
  const DEFAULT_EVEC: Evec := Evec(9999, 9999, 9999, 1.0, -1.0, -1.0)

  /** Centre-of-mass energy (GeV) and proton mass (GeV). */
  const SQRTS: real := 13000.0
  const MP: real := 0.938

  /** Proton plus pi0 threshold on a diffractive mass squared. */
  const M2_MIN: real := (MP + 0.14) * (MP + 0.14)

  /** s contains sub as a contiguous piece (TString::Contains). */
  predicate Contains(s: string, sub: string)
    decreases |s|
  {
    |sub| <= |s| && (s[..|sub|] == sub || Contains(s[1..], sub))
  }

  /** Diffractive mass cut-off (MassCutOff). EPOS samples and processes other
      than SD (0, 1) and DD (2) always pass. SD requires both masses squared
      below xiMax * s; DD in mode 0 requires M2_L * M2_R below
      xiMax * s * MP^2 and in mode 1 uses the SD rule; SD and DD masses of the
      diffractive side(s) must reach the proton-plus-pion threshold. */
  function MassCutOff(ev: Evec, xiMax: real, mcName: string, ddMode: int): (pass: bool)
    ensures Contains(mcName, "EPOS-LHC") || ev.proc > 2 ==> pass
    ensures !Contains(mcName, "EPOS-LHC") && ev.proc <= 1 ==>
      (pass <==> ev.m2L <= xiMax * (SQRTS * SQRTS) && ev.m2R <= xiMax * (SQRTS * SQRTS)
                 && (ev.proc == 0 ==> ev.m2L >= M2_MIN) && (ev.proc == 1 ==> ev.m2R >= M2_MIN))
    ensures !Contains(mcName, "EPOS-LHC") && ev.proc == 2 && ddMode == 0 ==>
      (pass <==> ev.m2L * ev.m2R <= xiMax * (SQRTS * SQRTS) * (MP * MP)
                 && ev.m2L >= M2_MIN && ev.m2R >= M2_MIN)
    ensures !Contains(mcName, "EPOS-LHC") && ev.proc == 2 && ddMode == 1 ==>
      (pass <==> ev.m2L <= xiMax * (SQRTS * SQRTS) && ev.m2R <= xiMax * (SQRTS * SQRTS)
                 && ev.m2L >= M2_MIN && ev.m2R >= M2_MIN)
    ensures !Contains(mcName, "EPOS-LHC") && ev.proc == 2 && ddMode != 0 && ddMode != 1 ==>
      (pass <==> ev.m2L >= M2_MIN && ev.m2R >= M2_MIN)
  {
    if Contains(mcName, "EPOS-LHC") || ev.proc > 2 then true
    else
      var s := SQRTS * SQRTS;
      var sdFail := ev.m2L > xiMax * s || ev.m2R > xiMax * s;
      if ev.proc <= 1 && sdFail then false
      else if ev.proc == 2 && ddMode == 0 && ev.m2L * ev.m2R > xiMax * s * (MP * MP) then false
      else if ev.proc == 2 && ddMode == 1 && sdFail then false
      else if (ev.proc == 0 && ev.m2L < M2_MIN) || (ev.proc == 1 && ev.m2R < M2_MIN)
           || (ev.proc == 2 && (ev.m2L < M2_MIN || ev.m2R < M2_MIN)) then false
      else true
  }

  /** Loosening the cut-off keeps every event that passed: MassCutOff is
      monotone in xiMax. */
  lemma MassCutOffMonotone(ev: Evec, xi1: real, xi2: real, mcName: string, ddMode: int)
    requires xi1 <= xi2
    requires MassCutOff(ev, xi1, mcName, ddMode)
    ensures MassCutOff(ev, xi2, mcName, ddMode)
  {
    var s := SQRTS * SQRTS;
    assert xi1 * s <= xi2 * s;
    assert xi1 * s * (MP * MP) <= xi2 * s * (MP * MP);
  }

  /** SPD fast-OR chips masked away as noisy (the list has repeats). */
  const SPD_NOISY: seq<nat> := [
    50, 69, 151, 188, 208, 230, 232, 233, 320, 329, 331, 421, 460, 541, 719, 827, 1027, 1059, 1070, 1090, 1117, 1190,
    39, 151, 235, 331, 402, 422, 460, 479, 529, 599, 650, 711, 742, 747, 780, 919, 1027, 1190,
    79, 389, 518, 552, 572, 590, 751, 757, 767, 781, 810, 827, 828, 840, 890, 900, 930, 1027, 1033, 1060, 1072, 1090,
    1127, 1169, 1176, 1190]

  /** A chip is noisy exactly when it appears on the list (IsNoisySPD). */
  method IsNoisySPD(chip: nat) returns (noisy: bool)
    ensures noisy <==> chip in SPD_NOISY
  {
    var i := 0;
    while i < |SPD_NOISY|
      invariant 0 <= i <= |SPD_NOISY|
      invariant forall k :: 0 <= k < i ==> SPD_NOISY[k] != chip
    {
      if SPD_NOISY[i] == chip {
        return true;
      }
      i := i + 1;
    }
    return false;
  }

  /** Bit k of a 64-bit class mask (mask & (1 << k) != 0). */
  predicate Bit(mask: nat, k: nat)
  {
    (mask / Bits.Pow2(k)) % 2 == 1
  }

  /** Offset of the bunch-crossing mask B, A, C or E among the trigger
      classes; an unknown mask keeps the B offset. */
  function BCShift(bcMask: string): (shift: nat)
    ensures shift <= 3
    ensures shift == 0 <==> bcMask != "A" && bcMask != "C" && bcMask != "E"
  {
    if bcMask == "E" then 3 else if bcMask == "C" then 2 else if bcMask == "A" then 1 else 0
  }

  /** The trigger-class bits the online trigger of a run reads for a
      bunch-crossing shift; an unknown run reads none. For the 2017 runs an
      I-class sits between the B class and the A, C, E classes. */
  function TriggerBits(run: int, shift: nat): seq<nat>
  {
    if run == 226062 then [12 + shift, 20 + shift]
    else if run == 234039 then [28 + shift]
    else if run == 274593 || run == 274594 || run == 274595 then [34 + shift + (if shift == 0 then 0 else 1)]
    else []
  }

  /** Online decision of a detector (AD or V0) per side, after rounding to
      the nearest integer: beam-beam, beam-gas or anything else. */
  datatype Decision = BB | BG | Other

  /** The online information of a simulated event: the number of fired SPD
      fast-OR chips and the AD/V0 decisions of the C and A sides. */
  datatype MCOnline = MCOnline(fastOrBits: nat, adC: Decision, v0C: Decision, v0A: Decision, adA: Decision)

  /** Re-emulated online trigger (OnlineTrigger). On data it passes when the
      class mask has one of the run's trigger bits for the bunch-crossing
      mask set, and never for an unknown run; on Monte Carlo it is the OR of
      SPD || V0 || AD beam-beam signals. */
  function OnlineTrigger(run: int, bcMask: string, classMask: nat, isMC: bool, mc: MCOnline): (pass: bool)
    ensures !isMC ==> (pass <==> exists k :: k in TriggerBits(run, BCShift(bcMask)) && Bit(classMask, k))
    ensures isMC ==> (pass <==> mc.fastOrBits >= 1 || BB in [mc.adC, mc.v0C, mc.v0A, mc.adA])
  {
    var shift := BCShift(bcMask);
    var online :=
      if run == 226062 then Bit(classMask, 12 + shift) || Bit(classMask, 20 + shift)
      else if run == 234039 then Bit(classMask, 28 + shift)
      else if run == 274593 || run == 274594 || run == 274595 then
        var offset := if shift == 0 then 0 else 1;
        Bit(classMask, 34 + shift + offset)
      else false;
    if isMC then
      mc.fastOrBits >= 1 || mc.adC == BB || mc.v0C == BB || mc.v0A == BB || mc.adA == BB
    else online
  }

  /** Different bunch-crossing masks read disjoint trigger-class bits in
      every run, and all of them lie in the 64-bit mask. */
  lemma TriggerBitsDisjoint(run: int, s1: nat, s2: nat)
    requires s1 <= 3 && s2 <= 3 && s1 != s2
    ensures forall k :: k in TriggerBits(run, s1) ==> k < 64 && k !in TriggerBits(run, s2)
  {
  }

  /** Setting bit k adds 2^k to a mask that does not have it. */
  lemma BitOfPower(k: nat)
    ensures Bit(Bits.Pow2(k), k)
  {
    assert Bits.Pow2(k) / Bits.Pow2(k) == 1;
  }

  /** A data event fires the trigger of a known run exactly when its class
      mask carries the run's first trigger bit for the beam-beam mask; with a
      mask holding only that bit it fires. */
  lemma OnlineTriggerFiresOnItsBit(run: int, bcMask: string, mc: MCOnline)
    requires run in {226062, 234039, 274593, 274594, 274595}
    ensures var k := TriggerBits(run, BCShift(bcMask))[0];
      OnlineTrigger(run, bcMask, Bits.Pow2(k), false, mc)
  {
    var k := TriggerBits(run, BCShift(bcMask))[0];
    BitOfPower(k);
    assert k in TriggerBits(run, BCShift(bcMask));
  }

  /** Offline AD and V0 decisions of the C and A sides. */
  datatype Offline = Offline(adC: Decision, v0C: Decision, v0A: Decision, adA: Decision)

  /** Beam-gas veto (BGVeto): an event passes unless some detector flagged
      it as beam-gas. */
  function BGVeto(d: Offline): (pass: bool)
    ensures pass <==> BG !in [d.adC, d.v0C, d.v0A, d.adA]
  {
    !(d.adC == BG || d.v0C == BG || d.v0A == BG || d.adA == BG)
  }

  /** Arrival times (ns) of the AD and V0 signals on the C and A sides. */
  datatype Times = Times(adC: real, v0C: real, v0A: real, adA: real)

  /** A [min, max] timing window (ns). */
  datatype Window = Window(min: real, max: real)

  /** Timing windows of one detector for the C and A sides. */
  datatype SideWindows = SideWindows(c: Window, a: Window)

  /** The fixed timing windows of the analysis. */
  const AD_CUT_T: SideWindows := SideWindows(Window(63.0, 69.0), Window(54.0, 60.0))
  const V0_CUT_T: SideWindows := SideWindows(Window(0.0, 6.0), Window(7.0, 14.0))

  /** Width (ns) of the early and late veto bands. */
  const BAND: real := 500.0

  /** Early-interaction veto (EarlyInteractionVeto): fails when some signal
      arrives within the band just before (and including) the start of its
      window. */
  function EarlyInteractionVeto(t: Times, v0: SideWindows, ad: SideWindows): (pass: bool)
    ensures !pass <==> ((ad.c.min - BAND <= t.adC <= ad.c.min) || (v0.c.min - BAND <= t.v0C <= v0.c.min)
                     || (v0.a.min - BAND <= t.v0A <= v0.a.min) || (ad.a.min - BAND <= t.adA <= ad.a.min))
  {
    !(VecOper.IsInRange(t.adC, ad.c.min - BAND, ad.c.min)
      || VecOper.IsInRange(t.v0C, v0.c.min - BAND, v0.c.min)
      || VecOper.IsInRange(t.v0A, v0.a.min - BAND, v0.a.min)
      || VecOper.IsInRange(t.adA, ad.a.min - BAND, ad.a.min))
  }

  /** Late-interaction veto (LateInteractionVeto): fails when some signal
      arrives at or within the band after the end of its window. */
  function LateInteractionVeto(t: Times, v0: SideWindows, ad: SideWindows): (pass: bool)
    ensures !pass <==> ((ad.c.max <= t.adC <= ad.c.max + BAND) || (v0.c.max <= t.v0C <= v0.c.max + BAND)
                     || (v0.a.max <= t.v0A <= v0.a.max + BAND) || (ad.a.max <= t.adA <= ad.a.max + BAND))
  {
    !(VecOper.IsInRange(t.adC, ad.c.max, ad.c.max + BAND)
      || VecOper.IsInRange(t.v0C, v0.c.max, v0.c.max + BAND)
      || VecOper.IsInRange(t.v0A, v0.a.max, v0.a.max + BAND)
      || VecOper.IsInRange(t.adA, ad.a.max, ad.a.max + BAND))
  }

  predicate StrictlyInside(x: real, w: Window)
  {
    w.min < x < w.max
  }

  /** An event whose four signals all arrive strictly inside the fixed
      timing windows survives both timing vetoes, while a signal exactly at
      the start of its window is already vetoed as early. */
  lemma TimingWindowsPass(t: Times)
    ensures (StrictlyInside(t.adC, AD_CUT_T.c) && StrictlyInside(t.v0C, V0_CUT_T.c)
             && StrictlyInside(t.v0A, V0_CUT_T.a) && StrictlyInside(t.adA, AD_CUT_T.a)) ==>
            EarlyInteractionVeto(t, V0_CUT_T, AD_CUT_T) && LateInteractionVeto(t, V0_CUT_T, AD_CUT_T)
    ensures t.v0C == V0_CUT_T.c.min ==> !EarlyInteractionVeto(t, V0_CUT_T, AD_CUT_T)
  {
  }
}
