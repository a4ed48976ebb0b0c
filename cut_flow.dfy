/**
 * Cut-and-count bookkeeping (src/CutFlow.cc). A cut matrix with one row per
 * cut and one column per event holds 1 (passed), 0 (failed) or -1 (not
 * evaluated); every cut can be switched on or off and carries a name. The
 * serial flow charges every event to the first enabled cut it fails.
 */
module CutFlow {
  import Bits

  /** The cut matrix has one row per cut, each with nEvents cells, and one
      status per cut. */
  predicate Shape(cmat: seq<seq<int>>, status: seq<bool>, nEvents: nat)
  {
    |status| == |cmat| && forall c :: 0 <= c < |cmat| ==> |cmat[c]| == nEvents
  }

  /** Event i passes every enabled cut (an unevaluated -1 counts as a fail). */
  predicate PassesAll(cmat: seq<seq<int>>, status: seq<bool>, nEvents: nat, i: nat)
    requires Shape(cmat, status, nEvents) && i < nEvents
  {
    forall c :: 0 <= c < |cmat| && status[c] ==> cmat[c][i] == 1
  }

  /** The first enabled cut at or after c that event i failed with a 0, or
      the number of cuts when there is none. */
  function FirstFail(cmat: seq<seq<int>>, status: seq<bool>, nEvents: nat, i: nat, c: nat): (f: nat)
    requires Shape(cmat, status, nEvents) && i < nEvents && c <= |cmat|
    ensures c <= f <= |cmat|
    ensures f < |cmat| ==> status[f] && cmat[f][i] == 0
    ensures forall k :: c <= k < f ==> !(status[k] && cmat[k][i] == 0)
    decreases |cmat| - c
  {
    if c == |cmat| then c
    else if status[c] && cmat[c][i] == 0 then c
    else FirstFail(cmat, status, nEvents, i, c + 1)
  }

  /** Serial flow over the first n events: entry c < |cmat| counts the
      events charged to cut c, the last entry those that pass the flow. */
  function SerialCounts(cmat: seq<seq<int>>, status: seq<bool>, nEvents: nat, n: nat): (counts: seq<nat>)
    requires Shape(cmat, status, nEvents) && n <= nEvents
    ensures |counts| == |cmat| + 1
  {
    if n == 0 then seq(|cmat| + 1, _ => 0)
    else
      var prev := SerialCounts(cmat, status, nEvents, n - 1);
      var f := FirstFail(cmat, status, nEvents, n - 1, 0);
      prev[f := prev[f] + 1]
  }

  /** Every event is charged exactly once: the serial counts add up to the
      number of events, so the cut counts add up to at most nEvents. */
  lemma {:induction false} SerialCountsTotal(cmat: seq<seq<int>>, status: seq<bool>, nEvents: nat, n: nat)
    requires Shape(cmat, status, nEvents) && n <= nEvents
    ensures Bits.SumNat(SerialCounts(cmat, status, nEvents, n)) == n
  {
    if n == 0 {
      ZeroSum(|cmat| + 1);
    } else {
      SerialCountsTotal(cmat, status, nEvents, n - 1);
      var prev := SerialCounts(cmat, status, nEvents, n - 1);
      Bits.SumNatIncrement(prev, FirstFail(cmat, status, nEvents, n - 1, 0));
    }
  }

  lemma {:induction false} ZeroSum(n: nat)
    ensures Bits.SumNat(seq(n, _ => 0)) == 0
  {
    if n > 0 {
      assert seq(n, _ => 0)[..n - 1] == seq(n - 1, _ => 0);
      ZeroSum(n - 1);
    }
  }

  /** A disabled cut is never charged. */
  lemma {:induction false} DisabledCutsUncharged(cmat: seq<seq<int>>, status: seq<bool>, nEvents: nat, n: nat, c: nat)
    requires Shape(cmat, status, nEvents) && n <= nEvents && c < |cmat| && !status[c]
    ensures SerialCounts(cmat, status, nEvents, n)[c] == 0
  {
    if n > 0 {
      DisabledCutsUncharged(cmat, status, nEvents, n - 1, c);
    }
  }

  /** An event that getPass lists passes the whole serial flow; with -1
      entries the converse fails, since the serial flow only stops at 0. */
  lemma PassImpliesSerialPass(cmat: seq<seq<int>>, status: seq<bool>, nEvents: nat, i: nat)
    requires Shape(cmat, status, nEvents) && i < nEvents
    requires PassesAll(cmat, status, nEvents, i)
    ensures FirstFail(cmat, status, nEvents, i, 0) == |cmat|
  {
  }

  /** An event with an unevaluated (-1) cell in an enabled cut and no 0 in
      any enabled cut is dropped by getPass, yet the serial flow charges it
      to no cut. */
  lemma UnevaluatedCutDiffers(cmat: seq<seq<int>>, status: seq<bool>, nEvents: nat, i: nat, c: nat)
    requires Shape(cmat, status, nEvents) && i < nEvents
    requires c < |cmat| && status[c] && cmat[c][i] == -1
    requires forall k :: 0 <= k < |cmat| && status[k] ==> cmat[k][i] != 0
    ensures !PassesAll(cmat, status, nEvents, i)
    ensures FirstFail(cmat, status, nEvents, i, 0) == |cmat|
  {
  }

  /** The printed survivor count after every cut of the serial flow: the
      running total starts at n and drops by the charge of each switched-on
      cut. */
  method RunningRemainder(n: int, cutFlow: seq<nat>, status: seq<bool>) returns (remaining: seq<int>)
    requires |status| == |cutFlow|
    requires forall c :: 0 <= c < |cutFlow| && !status[c] ==> cutFlow[c] == 0
    ensures |remaining| == |cutFlow|
    ensures forall c :: 0 <= c < |cutFlow| ==> remaining[c] == n - Bits.SumNat(cutFlow[..c + 1])
  {
    var sum := n;
    remaining := [];
    var c := 0;
    while c < |cutFlow|
      invariant 0 <= c <= |cutFlow| && |remaining| == c
      invariant sum == n - Bits.SumNat(cutFlow[..c])
      invariant forall k :: 0 <= k < c ==> remaining[k] == n - Bits.SumNat(cutFlow[..k + 1])
    {
      assert cutFlow[..c + 1][..c] == cutFlow[..c];
      if status[c] {
        sum := sum - cutFlow[c];
      }
      remaining := remaining + [sum];
      c := c + 1;
    }
  }

  /** Total number of events charged to some cut. */
  method TotalCharged(cutFlow: seq<nat>) returns (total: nat)
    ensures total == Bits.SumNat(cutFlow)
  {
    total := 0;
    var c := 0;
    while c < |cutFlow|
      invariant 0 <= c <= |cutFlow|
      invariant total == Bits.SumNat(cutFlow[..c])
    {
      assert cutFlow[..c + 1][..c] == cutFlow[..c];
      total := total + cutFlow[c];
      c := c + 1;
    }
    assert cutFlow[..c] == cutFlow;
  }

  class CutFlow {
    /** Cut matrix: row c holds the outcomes of cut c for every event. */
    var cmat: seq<seq<int>>
    /** Name of the whole input sample. */
    var inputName: string
    /** Name of every cut. */
    var names: seq<string>
    /** Whether every cut is switched on. */
    var status: seq<bool>

    ghost var nEvents: nat

    ghost predicate Valid()
      reads this
    {
      Shape(cmat, status, nEvents) && |names| == |cmat|
    }

    /** Name of cut c (getName). */
    function GetName(c: nat): (name: string)
      reads this
      requires Valid() && c < |names|
      ensures name == names[c]
    {
      names[c]
    }

    /** A cut matrix of nCuts x nEvents unevaluated (-1) cells, every cut
        switched off and unnamed. */
    constructor (nEvents: nat, nCuts: nat, inputName: string)
      ensures Valid() && this.nEvents == nEvents
      ensures cmat == seq(nCuts, _ => seq(nEvents, _ => -1))
      ensures status == seq(nCuts, _ => false)
      ensures names == seq(nCuts, _ => "")
      ensures this.inputName == inputName
    {
      cmat := seq(nCuts, _ => seq(nEvents, _ => -1));
      status := seq(nCuts, _ => false);
      names := seq(nCuts, _ => "");
      this.inputName := inputName;
      this.nEvents := nEvents;
    }

    /** Records the outcome of cut c for an event (1 for pass, 0 for fail)
        and answers whether the event survives it: a switched-off cut always
        lets the event through. */
    method Cut(event: nat, c: nat, result: bool) returns (pass: bool)
      requires Valid() && c < |cmat| && event < nEvents
      modifies this
      ensures Valid() && nEvents == old(nEvents)
      ensures cmat == old(cmat)[c := old(cmat)[c][event := if result then 1 else 0]]
      ensures status == old(status) && names == old(names) && inputName == old(inputName)
      ensures pass == (!status[c] || result)
    {
      cmat := cmat[c := cmat[c][event := if result then 1 else 0]];
      if status[c] {
        pass := result;
      } else {
        pass := true;
      }
    }

    /** Names cut c and switches it on or off (nameCut); getName then reports
        the new name. */
    method NameCut(c: nat, name: string, on: bool)
      requires Valid() && c < |cmat|
      modifies this
      ensures Valid() && nEvents == old(nEvents)
      ensures names == old(names)[c := name] && status == old(status)[c := on]
      ensures cmat == old(cmat) && inputName == old(inputName)
      ensures GetName(c) == name
    {
      names := names[c := name];
      status := status[c := on];
    }

    /** Event indices, in increasing order, that pass every switched-on cut
        (getPass). The event count is read from row 1, so at least two cuts
        are needed. */
    method GetPass() returns (list: seq<nat>)
      requires Valid() && |cmat| >= 2
      ensures forall k :: 0 <= k < |list| ==> list[k] < nEvents
      ensures forall k, l :: 0 <= k < l < |list| ==> list[k] < list[l]
      ensures forall j :: 0 <= j < nEvents ==> (j in list <==> PassesAll(cmat, status, nEvents, j))
    {
      list := [];
      var n := |cmat[1]|;
      var j := 0;
      while j < n
        invariant 0 <= j <= n
        invariant forall k :: 0 <= k < |list| ==> list[k] < j
        invariant forall k, l :: 0 <= k < l < |list| ==> list[k] < list[l]
        invariant forall e :: 0 <= e < j ==> (e in list <==> PassesAll(cmat, status, nEvents, e))
      {
        var allPassed := true;
        var i := 0;
        while i < |cmat|
          invariant 0 <= i <= |cmat|
          invariant allPassed <==> forall c :: 0 <= c < i && status[c] ==> cmat[c][j] == 1
        {
          if status[i] {
            if cmat[i][j] != 1 {
              allPassed := false;
              break;
            }
          }
          i := i + 1;
        }
        if allPassed {
          list := list + [j];
        }
        j := j + 1;
      }
    }

    /** The event loop of printFlow: charges every event to the first
        switched-on cut it failed with a 0. */
    method SerialFlow() returns (cutFlow: seq<nat>)
      requires Valid() && |cmat| >= 2
      ensures cutFlow == SerialCounts(cmat, status, nEvents, nEvents)[..|cmat|]
    {
      var nCuts := |cmat|;
      var n := |cmat[1]|;
      cutFlow := seq(nCuts, _ => 0);
      var i := 0;
      while i < n
        invariant 0 <= i <= n
        invariant cutFlow == SerialCounts(cmat, status, nEvents, i)[..nCuts]
      {
        var c := 0;
        while c < nCuts
          invariant 0 <= c <= nCuts
          invariant FirstFail(cmat, status, nEvents, i, 0) == FirstFail(cmat, status, nEvents, i, c)
        {
          if status[c] {
            if cmat[c][i] == 0 {
              cutFlow := cutFlow[c := cutFlow[c] + 1];
              break;
            }
          }
          c := c + 1;
        }
        i := i + 1;
      }
    }

    /** The counting half of printFlow: cutFlow[c] is the number of events
        whose first failed (0) switched-on cut is c, remaining[c] the events
        still in the flow after cut c, and output the events that survive
        every cut. */
    method FlowCounts() returns (cutFlow: seq<nat>, remaining: seq<int>, output: int)
      requires Valid() && |cmat| >= 2
      ensures cutFlow == SerialCounts(cmat, status, nEvents, nEvents)[..|cmat|]
      ensures |remaining| == |cmat|
      ensures forall c :: 0 <= c < |cmat| ==> remaining[c] == nEvents - Bits.SumNat(cutFlow[..c + 1])
      ensures forall c :: 0 <= c < |cmat| ==> remaining[c] >= output
      ensures output == SerialCounts(cmat, status, nEvents, nEvents)[|cmat|]
      ensures 0 <= output <= nEvents
    {
      var n := |cmat[1]|;
      cutFlow := SerialFlow();
      forall c | 0 <= c < |cmat| && !status[c]
        ensures cutFlow[c] == 0
      {
        DisabledCutsUncharged(cmat, status, nEvents, n, c);
      }
      remaining := RunningRemainder(n, cutFlow, status);
      var totsumm := TotalCharged(cutFlow);
      output := n - totsumm;
      OutputIsPassCount(cutFlow, n);
      forall k | 0 <= k < |cmat|
        ensures remaining[k] >= output
      {
        Bits.SumNatSplit(cutFlow, k + 1);
      }
    }

    /** The events that no cut claimed are the serial-flow survivors. */
    lemma OutputIsPassCount(cutFlow: seq<nat>, n: nat)
      requires Valid() && n == nEvents
      requires cutFlow == SerialCounts(cmat, status, nEvents, nEvents)[..|cmat|]
      ensures n - Bits.SumNat(cutFlow) == SerialCounts(cmat, status, nEvents, nEvents)[|cmat|]
    {
      var nCuts := |cmat|;
      var all := SerialCounts(cmat, status, nEvents, n);
      SerialCountsTotal(cmat, status, nEvents, n);
      Bits.SumNatSplit(all, nCuts);
      assert all[nCuts..] == [all[nCuts]];
      assert Bits.SumNat([all[nCuts]]) == all[nCuts] by {
        assert [all[nCuts]][..0] == [];
      }
    }
  }
}
